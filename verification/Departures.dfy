/** Runs of the file layer, from initialisation on, in which the code as written goes
    wrong. */
module Departures {
  import opened Bitmap
  import opened Chains
  import opened PageLists
  import opened Layout
  import opened LogModel
  import opened Region
  import opened WriteModel
  import opened FileSpec
  import opened LogStore
  import opened LogMeaning
  import opened WriteSteps
  import opened GcSteps
  import opened GcTask
  import opened Inodes
  import opened Format

  /** The entry gives one page, to file page `fp`. */
  ghost predicate GivesPage(e: Ent, fp: nat) {
    |e.pages| == 1 && FirstPage(e.rec) == fp
  }

  lemma WholePage(fp: nat, size: nat, e: Ent)
    requires Recorded(FileOff(fp), PAGE_SIZE, size, e)
    ensures GivesPage(e, fp)
  {
  }

  /** The log's entries from `from` to `n` give file page 0. */
  ghost predicate Overwrites(ents: seq<Ent>, from: nat, n: nat) {
    n <= |ents| && forall k | from <= k < n :: GivesPage(ents[k], 0)
  }

  lemma OverwritesMore(off: nat, size: nat, log0: seq<LogPage>, log: seq<LogPage>, from: nat, fp: nat)
    requires Overwrites(Entries(log0), from, |Entries(log0)|) && Grown(log0, log) && |Entries(log)| == |Entries(log0)| + 1
    requires NewRecorded(off, PAGE_SIZE, size, log0, log) && off == FileOff(fp)
    ensures Overwrites(Entries(log), from, |Entries(log0)|) && GivesPage(Entries(log)[|Entries(log0)|], fp)
  {
    hide Entries, Recorded;
    WholePage(fp, size, Entries(log)[|Entries(log0)|]);
  }

  lemma PageCosts(fp: nat)
    ensures ChunkCount(PageCount(PAGE_SIZE, FileOff(fp) % PAGE_SIZE)) == 1
    ensures WriteCost(PAGE_SIZE, FileOff(fp)) == 2 * FILL_MAX
    ensures forall pages :: CleanWrite(FileOff(fp), PAGE_SIZE, pages)
    ensures TouchedPages(FileOff(fp), PAGE_SIZE) == {fp}
  {
    FileOffAligned(fp);
    FileOffAligned(fp + 1);
    FileOffAdd(fp, 1);
  }

  /** All pages in use are inode `ino`'s. */
  ghost predicate AllMine(own: seq<Owner<Use>>, ino: nat) {
    forall p | 0 <= p < |own| && own[p].Held? :: own[p].holder.ino == ino
  }

  lemma HeldMine(m: Mem, m': Mem, ino: nat)
    requires AllMine(m.own, ino) && HeldKept(m, m', ino)
    ensures AllMine(m'.own, ino)
  {
  }

  lemma OthersMine(m: Mem, m': Mem, ino: nat)
    requires AllMine(m.own, ino) && OthersKept(m, m', ino)
    ensures AllMine(m'.own, ino)
  {
  }

  /** One write of a whole page at the position, file page `fp`. */
  method WritePage(nvm: Nvm, inode: Inode, fp: nat, ghost from: nat, ghost n: nat)
    requires inode.Ready(nvm) && inode.fileOff == FileOff(fp) && fp <= 2 && nvm.Room() >= 2 * FILL_MAX
    requires |Entries(inode.log)| == n && Overwrites(Entries(inode.log), from, n)
    requires AllMine(nvm.own, inode.ino)
    modifies nvm, inode
    ensures AllMine(nvm.own, inode.ino)
    ensures inode.Ready(nvm) && nvm.Room() + 2 * FILL_MAX >= old(nvm.Room())
    ensures |Entries(inode.log)| == n + 1 && Overwrites(Entries(inode.log), from, n) && GivesPage(Entries(inode.log)[n], fp)
    ensures inode.fileOff == FileOff(fp + 1) && Grown(old(inode.log), inode.log)
    ensures inode.View(nvm).pages == old(inode.View(nvm)).pages + {fp}
  {
    hide Inv, MemOk, Stored, SizeOk, EndPos, ZeroTail, FileBytes, Entries, Grown, NewRecorded, Overwrites, GivesPage, CleanWrite, WriteCost,
         ChunkCount, PageCount, Splice, HeldKept, Wrote, TouchedPages, AllMine;
    ghost var m, log0, size0 := nvm.M(), inode.log, inode.iSize;
    PageCosts(fp);
    FileOffAdd(fp, 1);
    var page := seq(PAGE_SIZE, _ => 1);
    var ok, r := inode.AtfsWrite(nvm, AsWritten(0), page);
    HeldMine(m, nvm.M(), inode.ino);
    OverwritesMore(FileOff(fp), size0, log0, inode.log, from, fp);
  }

  lemma FirstOffsets()
    ensures FileOff(0) == 0 && FileOff(1) == PAGE_SIZE && Word(0) == 0
  {
  }

  lemma OverwritesNext(ents: seq<Ent>, from: nat, n: nat)
    requires n < |ents| && Overwrites(ents, from, n) && GivesPage(ents[n], 0)
    ensures Overwrites(ents, from, n + 1)
  {
  }

  // ------------------------------------------------------------------- the full page

  lemma EntriesOne(log: seq<LogPage>)
    requires |log| == 1
    ensures Entries(log) == log[0].ents
  {
    assert log[..0] == [];
  }

  lemma EntriesTwo(log: seq<LogPage>)
    requires |log| >= 2
    ensures Entries(log[..2]) == log[0].ents + log[1].ents
    ensures |log| == 2 ==> Entries(log) == log[0].ents + log[1].ents
    ensures |Entries(log)| >= |log[0].ents| + |log[1].ents|
  {
    EntriesNext(log, 1);
    EntriesOne(log[..1]);
    assert log[..1] == [log[0]];
    EntriesConcat(log[..2], log[2..]);
    assert log == log[..2] + log[2..];
    if |log| == 2 {
      assert log[..2] == log;
    }
  }

  /** All pages of the log but the last are full. */
  lemma FullPages(m: Mem, ino: nat, log: seq<LogPage>)
    requires LogOk(m, ino, log, 0)
    ensures forall k | 0 <= k < |log| - 1 :: |log[k].ents| == SLOTS
    ensures log != [] && |log[|log| - 1].ents| <= SLOTS && (|log| > 1 ==> |log[|log| - 1].ents| > 0)
  {
    hide EntOk;
  }

  /** How many entries a log has tells how many pages. */
  lemma PagesOfLog(m: Mem, ino: nat, log: seq<LogPage>)
    requires LogOk(m, ino, log, 0)
    ensures |Entries(log)| <= SLOTS ==> |log| == 1 && Entries(log) == log[0].ents
    ensures |Entries(log)| == SLOTS + 1 ==> |log| == 2 && |log[0].ents| == SLOTS && |log[1].ents| == 1 && Entries(log) == log[0].ents + log[1].ents
  {
    hide LogOk, Entries;
    FullPages(m, ino, log);
    if |log| == 1 {
      EntriesOne(log);
    } else {
      EntriesTwo(log);
    }
  }

  lemma LogEntry(m: Mem, ino: nat, log: seq<LogPage>, k: nat, s: nat)
    requires LogOk(m, ino, log, 0) && k < |log| && s < |log[k].ents|
    ensures DeadInside(log[k].ents[s])
  {
    EntryInLog(m, ino, log, 0, k, s);
  }

  ghost predicate DeadInside(e: Ent) {
    forall i | i in e.dead :: i < |e.pages|
  }

  /** Of the 85 entries for page 0 all but the last are overwritten. */
  lemma AllButLastDead(m: Mem, ino: nat, log: seq<LogPage>, index: map<nat, int>, s: nat)
    requires Stored(m, ino, log, index) && |log| == 2 && |log[0].ents| == SLOTS && |log[1].ents| == 1 && s < SLOTS
    requires Overwrites(log[0].ents, 0, SLOTS) && GivesPage(log[1].ents[0], 1)
    ensures log[0].ents[s].dead == if s == SLOTS - 1 then {} else {0}
  {
    hide Stored, StoredLog, LogOk;
    StoredIs(m, ino, log, index);
    StoredMem(m, ino, log, index);
    BitIffLaterWrite(m, ino, log, index, 0, s, 0);
    LogEntry(m, ino, log, 0, s);
    if s < SLOTS - 1 {
      var k', s' := 0, SLOTS - 1;
      assert 0 <= k' < |log| && 0 <= s' < |log[k'].ents| && s' > s && In(SpanOf(log[k'].ents[s']), FirstPage(log[0].ents[s].rec) + 0);
    }
  }

  /** 84 overwritten entries and one that is not. */
  ghost predicate OneLive(ents: seq<Ent>) {
    |ents| == SLOTS && forall s | 0 <= s < SLOTS :: |ents[s].pages| == 1 && ents[s].dead == if s == SLOTS - 1 then {} else {0}
  }

  lemma {:induction false} DeadCounters(ents: seq<Ent>)
    requires forall s | 0 <= s < |ents| :: |ents[s].pages| == 1 && ents[s].dead == {0}
    ensures CountersOf(ents) == Counters(|ents|, |ents|, |ents|, |ents|)
  {
    if ents != [] {
      DeadCounters(ents[..|ents| - 1]);
    }
  }

  lemma {:induction false} DeadRuns(ents: seq<Ent>, size: nat, last: Ent)
    requires forall s | 0 <= s < |ents| :: |ents[s].pages| == 1 && ents[s].dead == {0}
    requires |last.pages| == 1 && last.dead == {}
    ensures BlockRuns(ents + [last], size) == [Piece(last, size, 0, 1)]
  {
    if ents == [] {
      assert (ents + [last])[1..] == [];
      assert RunEnd({}, 1, 0, false) == 1;
      assert LiveRuns(last, size, 0) == [Piece(last, size, 0, 1)];
    } else {
      assert RunEnd({0}, 1, 0, true) == 1;
      assert LiveRuns(ents[0], size, 0) == [];
      assert (ents + [last])[1..] == ents[1..] + [last];
      DeadRuns(ents[1..], size, last);
    }
  }

  /** The collector takes such a page and moves its one live page. */
  lemma OneLivePicked(pg: LogPage, size: nat)
    requires OneLive(pg.ents)
    ensures CountersOf(pg.ents) == Counters(85, 84, 85, 84) && Picked(pg)
    ensures BlockRuns(pg.ents, size) == [Piece(pg.ents[SLOTS - 1], size, 0, 1)]
  {
    var ents, last := pg.ents[..SLOTS - 1], pg.ents[SLOTS - 1];
    assert pg.ents == ents + [last] && (ents + [last])[..SLOTS - 1] == ents;
    DeadCounters(ents);
    CollectableIff(pg.ents);
    DeadRuns(ents, size, last);
  }

  /** The log of the run, before the collection; `q` is the page of file page 0. */
  ghost predicate BeforeCollect(m: Mem, ino: nat, log: seq<LogPage>, index: map<nat, int>, q: int) {
    && Stored(m, ino, log, index) && |log| == 2 && OneLive(log[0].ents) && |log[1].ents| == 1
    && log[0].ents[SLOTS - 1].pages == [q] && FirstPage(log[0].ents[SLOTS - 1].rec) == 0 && 0 in index && index[0] == q
  }

  lemma OverwrittenLog(m: Mem, ino: nat, log: seq<LogPage>, index: map<nat, int>) returns (q: int)
    requires Stored(m, ino, log, index) && |Entries(log)| == SLOTS + 1
    requires Overwrites(Entries(log), 0, SLOTS) && GivesPage(Entries(log)[SLOTS], 1)
    ensures BeforeCollect(m, ino, log, index, q)
  {
    hide Stored, StoredLog, LogOk, Entries;
    StoredIs(m, ino, log, index);
    StoredMem(m, ino, log, index);
    PagesOfLog(m, ino, log);
    assert forall s | 0 <= s < SLOTS :: log[0].ents[s] == Entries(log)[s];
    assert log[1].ents[0] == Entries(log)[SLOTS];
    forall s | 0 <= s < SLOTS
      ensures |log[0].ents[s].pages| == 1 && log[0].ents[s].dead == if s == SLOTS - 1 then {} else {0}
    {
      AllButLastDead(m, ino, log, index, s);
    }
    q := log[0].ents[SLOTS - 1].pages[0];
    LiveIndexed(m, ino, log, index, 0, SLOTS - 1, 0);
  }

  /** A position that is not marked is what the index gives. */
  lemma LiveIndexed(m: Mem, ino: nat, log: seq<LogPage>, index: map<nat, int>, k: nat, s: nat, i: nat)
    requires Stored(m, ino, log, index) && k < |log| && s < |log[k].ents| && i < |log[k].ents[s].pages| && i !in log[k].ents[s].dead
    ensures Lookup(index, FirstPage(log[k].ents[s].rec) + i) == Some(log[k].ents[s].pages[i])
  {
    hide LogOk, BacksOk, Replays, NoLeak, LogSpans, MarksOk;
    assert MarksOk(log[k].ents[s], index, {});
    MarkedAt(log[k].ents[s], index, {}, i);
  }

  lemma OneLiveFull(ents: seq<Ent>)
    requires OneLive(ents)
    ensures |ents| == SLOTS
  {
  }

  lemma MovedOne(log: seq<LogPage>, size: nat)
    requires |log| == 2 && OneLive(log[0].ents)
    ensures Moved(log[..1], size) == [Piece(log[0].ents[SLOTS - 1], size, 0, 1)] && Survivors(log[..1]) == []
  {
    hide BlockRuns;
    OneLivePicked(log[0], size);
    assert log[..1][..0] == [];
  }

  /** After the collection the log is the tail page with the moved page's entry behind;
      the collected page is free, and the moved page still names it. */
  lemma StaleAfter(m: Mem, m': Mem, ino: nat, log: seq<LogPage>, log': seq<LogPage>, index: map<nat, int>, q: int, size: nat)
    requires BeforeCollect(m, ino, log, index, q) && StoredLog(m', ino, log', index) && OthersKept(m, m', ino) && m'.back == m.back
    requires Extends(Survivors(log[..1]) + [log[1]], log')
    requires Entries(log') == Entries(Survivors(log[..1]) + [log[1]]) + Moved(log[..1], size)
    ensures 0 <= q < |m'.back| && m'.back[q] == Pos(log[0].id, SLOTS - 1) && 0 <= log[0].id < |m'.own| && m'.own[log[0].id].Free?
  {
    hide Stored, StoredLog, OthersKept, Extends, Entries, OneLive, Moved, Survivors;
    MovedOne(log, size);
    OneLiveFull(log[0].ents);
    assert [] + [log[1]] == [log[1]];
    EntriesOne([log[1]]);
    StoredIs(m, ino, log, index);
    StoredMem(m, ino, log, index);
    StoredMem(m', ino, log', index);
    PagesOfLog(m', ino, log');
    ExtendsFirst([log[1]], log');
    WordBefore(m, ino, log, index, q);
    var e := Piece(log[0].ents[SLOTS - 1], size, 0, 1);
    assert log'[0].ents == log[1].ents + [e] && e.pages == [q];
    NotInLog(m, m', ino, log, log', index, q);
  }

  lemma WordBefore(m: Mem, ino: nat, log: seq<LogPage>, index: map<nat, int>, q: int)
    requires Stored(m, ino, log, index) && |log| == 2 && |log[0].ents| == SLOTS && log[0].ents[SLOTS - 1].pages == [q]
    ensures 0 <= q < |m.back| && m.back[q] == Pos(log[0].id, SLOTS - 1)
    ensures 0 <= log[0].id < |m.own| && m.own[log[0].id] == Held(Use(ino, LogRole)) && log[1].id != log[0].id
  {
    hide LogOk;
    LogIds(m, ino, log, 0);
    BackAt(m.back, Pos(log[0].id, SLOTS - 1), log[0].ents[SLOTS - 1], 0);
  }

  lemma NotInLog(m: Mem, m': Mem, ino: nat, log: seq<LogPage>, log': seq<LogPage>, index: map<nat, int>, q: int)
    requires BeforeCollect(m, ino, log, index, q) && StoredLog(m', ino, log', index) && OthersKept(m, m', ino)
    requires |log'| == 1 && log'[0].id == log[1].id != log[0].id && |log'[0].ents| == 2
    requires log'[0].ents[0] == log[1].ents[0] && log'[0].ents[1].pages == [q]
    requires |log[0].ents| == SLOTS && 0 <= log[0].id < |m.own| && m.own[log[0].id] == Held(Use(ino, LogRole))
    ensures 0 <= log[0].id < |m'.own| && m'.own[log[0].id].Free?
  {
    hide LogOk, OneLive, Accounted;
    var p := log[0].id;
    DataRoles(m, ino, log, 0, SLOTS - 1);
    DataRoles(m, ino, log, 1, 0);
    forall role: Role ensures !Accounted(role, p, log', {}) {
      NotAccounted(role, p, log');
    }
  }

  lemma NotAccounted(role: Role, p: int, log: seq<LogPage>)
    requires |log| == 1 && log[0].id != p && |log[0].ents| == 2 && p !in log[0].ents[0].pages && p !in log[0].ents[1].pages
    ensures !Accounted(role, p, log, {})
  {
  }

  lemma DataRoles(m: Mem, ino: nat, log: seq<LogPage>, k: nat, s: nat)
    requires LogOk(m, ino, log, 0) && k < |log| && s < |log[k].ents|
    ensures forall p | p in log[k].ents[s].pages :: 0 <= p < |m.own| && m.own[p] == Held(Use(ino, DataRole(Pos(log[k].id, s))))
  {
    EntryInLog(m, ino, log, 0, k, s);
  }

  // ---------------------------------------------------------------------- the runs

  method Rewrite(nvm: Nvm, inode: Inode, ghost from: nat, ghost n: nat)
    requires inode.Ready(nvm) && nvm.Room() >= 2 * FILL_MAX && |Entries(inode.log)| == n && Overwrites(Entries(inode.log), from, n)
    requires AllMine(nvm.own, inode.ino)
    modifies nvm, inode
    ensures AllMine(nvm.own, inode.ino)
    ensures inode.Ready(nvm) && nvm.Room() + 2 * FILL_MAX >= old(nvm.Room())
    ensures |Entries(inode.log)| == n + 1 && Overwrites(Entries(inode.log), from, n + 1) && inode.fileOff == PAGE_SIZE
    ensures Grown(old(inode.log), inode.log)
    ensures inode.View(nvm).pages == old(inode.View(nvm)).pages + {0}
  {
    hide Inv, MemOk, Stored, SizeOk, EndPos, ZeroTail, FileBytes, Entries, Overwrites, GivesPage, AllMine, Grown;
    FirstOffsets();
    var r := inode.AtfsLseek(nvm, 0, SEEK_SET);
    WritePage(nvm, inode, 0, from, n);
    OverwritesNext(Entries(inode.log), from, n);
  }

  lemma NoneYet()
    ensures Overwrites([], 0, 0)
  {
  }

  /** A region with one empty file. */
  method OneFile() returns (nvm: Nvm, inode: Inode)
    ensures inode.Ready(nvm) && inode.ino == 0 && AllMine(nvm.own, 0) && inode.View(nvm) == File([], 0, {}) && Entries(inode.log) == []
    ensures nvm.Room() + FILL_MAX >= NUM_PAGES && fresh(nvm) && fresh(inode)
  {
    hide Inv, MemOk, Stored, SizeOk, EndPos, ZeroTail, FileBytes, Entries, HeldKept, FormattedLists;
    nvm := new Nvm(NUM_PAGES);
    inode := new Inode(0);
    ghost var m := nvm.M();
    var ok := inode.InitInode(nvm, AsWritten(0), 0);
    HeldMine(m, nvm.M(), 0);
  }

  /** Page 0 is written 85 times and page 1 once, with clean writes of the code as
      written (`WriteFull`). */
  method FullPage() returns (nvm: Nvm, inode: Inode)
    ensures inode.Ready(nvm) && inode.ino == 0 && nvm.Room() >= 4 * FILL_MAX && AllMine(nvm.own, 0)
    ensures |Entries(inode.log)| == SLOTS + 1 && Overwrites(Entries(inode.log), 0, SLOTS) && GivesPage(Entries(inode.log)[SLOTS], 1)
    ensures fresh(nvm) && fresh(inode)
  {
    hide Inv, MemOk, Stored, SizeOk, EndPos, ZeroTail, FileBytes, Entries, GivesPage, Overwrites, AllMine, Inode.View;
    nvm, inode := OneFile();
    WriteFull(nvm, inode);
  }

  method WriteFull(nvm: Nvm, inode: Inode)
    requires inode.Ready(nvm) && inode.ino == 0 && AllMine(nvm.own, 0) && Entries(inode.log) == []
    requires nvm.Room() + FILL_MAX >= NUM_PAGES && inode.View(nvm).pages == {}
    modifies nvm, inode
    ensures inode.Ready(nvm) && nvm.Room() >= 4 * FILL_MAX && AllMine(nvm.own, 0)
    ensures |Entries(inode.log)| == SLOTS + 1 && Overwrites(Entries(inode.log), 0, SLOTS) && GivesPage(Entries(inode.log)[SLOTS], 1)
    ensures inode.View(nvm).pages <= {0, 1}
  {
    hide Inv, MemOk, Stored, SizeOk, EndPos, ZeroTail, FileBytes, Entries, GivesPage, Overwrites, AllMine, Inode.View;
    FirstOffsets();
    NoneYet();
    var i := 0;
    while i < SLOTS
      invariant 0 <= i <= SLOTS && inode.Ready(nvm) && AllMine(nvm.own, 0) && inode.View(nvm).pages <= {0}
      invariant nvm.Room() + FILL_MAX + 2 * FILL_MAX * i >= NUM_PAGES
      invariant |Entries(inode.log)| == i && Overwrites(Entries(inode.log), 0, i) && (i > 0 ==> inode.fileOff == PAGE_SIZE)
    {
      Rewrite(nvm, inode, 0, i);
      i := i + 1;
    }
    WritePage(nvm, inode, 1, 0, SLOTS);
  }

  lemma BeforeMoves(m: Mem, log: seq<LogPage>, index: map<nat, int>, q: int, size: nat)
    requires BeforeCollect(m, 0, log, index, q)
    ensures |log| == 2 && |Moved(log[..|log| - 1], size)| == 1 && 0 in index && index[0] == q
    ensures LastPicked(log, 0, 1) && CountersOf(log[0].ents) == Counters(85, 84, 85, 84) && |log[0].ents| == SLOTS
    ensures log[0].ents[SLOTS - 1].dead == {}
  {
    MovedOne(log, size);
    OneLivePicked(log[0], size);
  }

  /** The record of the live entry, before and after: no bit of it is set. */
  lemma LiveRecord(m: Mem, log: seq<LogPage>, index: map<nat, int>, q: int)
    requires BeforeCollect(m, 0, log, index, q)
    ensures |log| > 0 && |log[0].ents| == SLOTS
    ensures var e := log[0].ents[SLOTS - 1]; e.rec.numPages == 1 && e.rec.invalidPages == 0 && FirstPage(e.rec) == 0 && !Marked(e.rec.bitmap, 0)
  {
    hide LogOk, BacksOk, Replays, NoLeak, LogSpans, MarksOk;
    LiveEntry(m, 0, log, 0, SLOTS - 1);
  }

  lemma LiveEntry(m: Mem, ino: nat, log: seq<LogPage>, k: nat, s: nat)
    requires LogOk(m, ino, log, 0) && k < |log| && s < |log[k].ents|
    ensures var e := log[k].ents[s]; e.rec.numPages == |e.pages| && e.rec.invalidPages == |e.dead|
    ensures 0 !in log[k].ents[s].dead ==> !Marked(log[k].ents[s].rec.bitmap, 0)
  {
    EntryInLog(m, ino, log, 0, k, s);
  }

  /** What the collector leaves of the first log page, `id`: it is on a free list, near the
      front, with the header and the records it had, and the entry word of file page 0
      names its last slot. */
  ghost predicate Left(nvm: Nvm, inode: Inode, q: int, id: int)
    reads nvm, inode
  {
    && nvm.Valid() && AllMine(nvm.own, 0) && 0 in inode.index && inode.index[0] == q
    && 0 <= q < |nvm.back| && nvm.back[q] == Pos(id, SLOTS - 1)
    && 0 <= id < |nvm.own| && nvm.own[id].Free? && id < |nvm.hdr| && nvm.hdr[id] == Counters(85, 84, 85, 84)
    && Shallow(nvm.free, id, 85)
    && id < |nvm.slot| && |nvm.slot[id]| == SLOTS
    && (var e := nvm.slot[id][SLOTS - 1]; e.numPages == 1 && e.invalidPages == 0 && FirstPage(e) == 0 && !Marked(e.bitmap, 0))
  }

  /** Page 0 is written 85 times, page 1 once, then the collector runs.  It moves the one
      live page of the first log page and leaves its entry word naming that log page,
      which is on a free list. */
  method StaleWord() returns (nvm: Nvm, inode: Inode, ghost q: int, ghost id: int)
    ensures inode.LogSound(nvm) && !BacksOk(nvm.back, inode.log) && Left(nvm, inode, q, id)
    ensures nvm.Room() >= 3 * FILL_MAX && fresh(nvm) && fresh(inode)
  {
    hide Inv, MemOk, Stored, StoredLog, SizeOk, EndPos, ZeroTail, FileBytes, Entries, OthersKept, Moved, Survivors, Extends,
         BacksOk, Overwrites, GivesPage, BeforeCollect, AllMine, Marked, FirstPage, LastPicked, FreedPage, LastFreed;
    var ok;
    nvm, inode := FullPage();
    ghost var m, log0 := nvm.M(), inode.log;
    q := OverwrittenLog(m, 0, log0, inode.index);
    BeforeMoves(m, log0, inode.index, q, inode.iSize);
    LiveRecord(m, log0, inode.index, q);
    id := log0[0].id;
    ok := inode.StartGcTask(nvm, AsWritten(0));
    StaleAfter(m, nvm.M(), 0, log0, inode.log, inode.index, q, inode.iSize);
    OthersMine(m, nvm.M(), 0);
    LeftOver(nvm.M(), nvm.free, log0);
  }

  lemma LeftOver(m: Mem, free: seq<seq<int>>, log: seq<LogPage>)
    requires |log| == 2 && LastPicked(log, 0, 1) && LastFreed(m, free, log, 1) && |log[0].ents| == SLOTS
    requires CountersOf(log[0].ents) == Counters(85, 84, 85, 84)
    ensures 0 <= log[0].id < |m.hdr| == |m.slot| && m.hdr[log[0].id] == Counters(85, 84, 85, 84) && Shallow(free, log[0].id, 85)
    ensures |m.slot[log[0].id]| == SLOTS && m.slot[log[0].id][SLOTS - 1] == log[0].ents[SLOTS - 1].rec
  {
    hide LastPicked, CountersOf, Shallow;
    assert FreedPage(m, free, log[0]);
  }

  /** The next write of file page 0 marks the entry that the old page's word names: here
      that sets a bit and raises the counters in a page that is on a free list. */
  method MarksFreePage() returns (nvm: Nvm, ghost id: int)
    ensures nvm.Valid() && 0 <= id < |nvm.own| && nvm.own[id].Free?
    ensures id < |nvm.hdr| && nvm.hdr[id] == Counters(85, 85, 85, 85)
    ensures id < |nvm.slot| && |nvm.slot[id]| == SLOTS && Marked(nvm.slot[id][SLOTS - 1].bitmap, 0)
  {
    hide Inv, StoredLog, SizeOk, EndPos, BacksOk, AllMine, Marked, FirstPage, Mark, Shallow;
    var inode; ghost var q;
    nvm, inode, q, id := StaleWord();
    MarkedMark(nvm.slot[id][SLOTS - 1].bitmap, 0, 0);
    var i := inode.MarkAt(nvm, nvm.back[inode.index[0]], 0);
  }

  // --------------------------------------------------------------- a used log page

  /** Where page `id` is among the pages CPU `cpu` hands out one by one. */
  ghost predicate Queued(free: seq<seq<int>>, cpu: nat, id: int, x: nat) {
    && |free| == LISTS && cpu < CPUS
    && x < |free[cpu + 1] + free[GLOBAL]| && (free[cpu + 1] + free[GLOBAL])[x] == id
    && (x < |free[cpu + 1]| || (x - |free[cpu + 1]| <= 85 && |free[GLOBAL]| >= FILL_MAX))
  }

  lemma QueueMoves(free: seq<seq<int>>, free': seq<seq<int>>, cpu: nat, id: int, x: nat)
    requires Queued(free, cpu, id, x) && x > 0 && TookFront(free, free', cpu + 1, 1)
    ensures Queued(free', cpu, id, x - 1)
  {
    var l := cpu + 1;
    if free[l] == [] {
      assert free'[l] + free'[GLOBAL] == free[GLOBAL][1..];
    } else {
      assert free'[l] + free'[GLOBAL] == (free[l] + free[GLOBAL])[1..];
    }
  }

  /** Inode 2 takes pages on the CPU until `id` is the next one. */
  method Drain(nvm: Nvm, cpu: nat, id: int, ghost x: nat)
    requires nvm.Valid() && Queued(nvm.free, cpu, id, x) && AllMineBut(nvm.own, 1)
    modifies nvm`next, nvm`head, nvm`count, nvm`own, nvm`free
    ensures nvm.Valid() && |nvm.free| == LISTS && FirstFree(nvm.free, cpu) == id && AllMineBut(nvm.own, 1)
    ensures nvm.free[cpu + 1] != [] || nvm.Room() >= FILL_MAX
  {
    hide Inv, MemOk, TookFront;
    ghost var y := x;
    MemSizes(nvm.M());
    CountsOk(nvm.Lists(), nvm.own, nvm.free, cpu + 1);
    Heads(nvm.Lists(), nvm.own, nvm.free, cpu);
    while (if nvm.head[cpu + 1] != NIL then nvm.head[cpu + 1] else nvm.head[GLOBAL]) != id
      invariant nvm.Valid() && Queued(nvm.free, cpu, id, y) && AllMineBut(nvm.own, 1)
      invariant |nvm.head| == LISTS && nvm.head[cpu + 1] == First(nvm.free[cpu + 1]) && nvm.head[GLOBAL] == First(nvm.free[GLOBAL])
      invariant nvm.free[cpu + 1] != [] ==> nvm.free[cpu + 1][0] != NIL
      decreases y
    {
      ghost var m, f := nvm.M(), nvm.free;
      MemSizes(m);
      var ok, first; ghost var c;
      ok, first, c := nvm.AllocOn(cpu, 1, 2);
      QueueMoves(f, nvm.free, cpu, id, y);
      y := y - 1;
      CountsOk(nvm.Lists(), nvm.own, nvm.free, cpu + 1);
      Heads(nvm.Lists(), nvm.own, nvm.free, cpu);
      MemSizes(nvm.M());
      TakenBut(m.own, nvm.own, c);
    }
  }

  lemma Heads(s: Pool, own: seq<Owner<Use>>, free: seq<seq<int>>, cpu: nat)
    requires Inv(s, own, free, NonePushed()) && cpu < CPUS
    ensures |s.head| == |free| == LISTS && s.head[cpu + 1] == First(free[cpu + 1]) && s.head[GLOBAL] == First(free[GLOBAL])
    ensures free[cpu + 1] != [] ==> free[cpu + 1][0] != NIL
  {
    ListPages(s, own, free, cpu + 1);
    ListPages(s, own, free, GLOBAL);
  }

  /** Inode `ino` has no page. */
  ghost predicate AllMineBut(own: seq<Owner<Use>>, ino: nat) {
    forall p | 0 <= p < |own| && own[p].Held? :: own[p].holder.ino != ino
  }

  lemma TakenBut(own: seq<Owner<Use>>, own': seq<Owner<Use>>, c: seq<int>)
    requires AllMineBut(own, 1) && |own'| == |own|
    requires forall p | 0 <= p < |own'| && own[p].Held? :: own'[p] == own[p]
    requires forall p | 0 <= p < |own'| && own[p].Free? :: own'[p].Free? || p in c
    requires forall i | 0 <= i < |c| :: 0 <= c[i] < |own'| && own'[c[i]] == Held(Use(2, Loose))
    ensures AllMineBut(own', 1)
  {
  }

  /** Page `id` is among the first 86 of list `l`. */
  predicate Near(next: seq<int>, first: int, id: int) {
    exists j: nat | j <= 85 :: Walk(next, first, j) == id
  }

  lemma NearQueued(s: Pool, own: seq<Owner<Use>>, free: seq<seq<int>>, cpu: nat, l: nat, id: int) returns (x: nat)
    requires Inv(s, own, free, NonePushed()) && cpu < CPUS && 0 <= id < |own| && |free| == LISTS
    requires l == cpu + 1 || (l == GLOBAL && |free[GLOBAL]| >= FILL_MAX)
    requires l < |s.head| && Near(s.next, s.head[l], id)
    ensures Queued(free, cpu, id, x)
  {
    var j: nat :| j <= 85 && Walk(s.next, s.head[l], j) == id;
    assert ListOk(s, own, free[l], l);
    WalkLinked(s.next, free[l], j);
    x := if l == GLOBAL then |free[cpu + 1]| + j else j;
  }

  lemma ShallowNear(s: Pool, own: seq<Owner<Use>>, free: seq<seq<int>>, id: int) returns (l: nat)
    requires Inv(s, own, free, NonePushed()) && Shallow(free, id, 85)
    ensures l < LISTS == |s.head| && Near(s.next, s.head[l], id)
  {
    var k, j :| 0 <= k < |free| && 0 <= j < |free[k]| && j <= 85 && free[k][j] == id;
    l := k;
    assert ListOk(s, own, free[l], l);
    WalkLinked(s.next, free[l], j);
  }

  /** After `StaleWord`, a new inode gets the collected page as its first log page, on the
      CPU whose list it is on or, if it is on the global list, on CPU 0: its counters
      are those of 85 entries, and the inode is not in order. */
  method UsedFirstPage() returns (nvm: Nvm, inode: Inode)
    ensures nvm.Valid() && inode.View(nvm) == File([], 0, {}) && !inode.Ready(nvm)
  {
    hide Inv, MemOk, StoredLog, SizeOk, EndPos, BacksOk, Marked, FirstPage, FileBytes, ZeroTail, Stored, Shallow, Near, Queued;
    var other; ghost var q, ghostId;
    nvm, other, q, ghostId := StaleWord();
    var id := nvm.back[other.index[0]].page;
    CountsOk(nvm.Lists(), nvm.own, nvm.free, 1);
    ghost var l := ShallowNear(nvm.Lists(), nvm.own, nvm.free, id);
    var cpu: nat, list: nat := 0, GLOBAL;
    if !Near(nvm.next, nvm.head[GLOBAL], id) {
      assert l > 0 && Near(nvm.next, nvm.head[l], id);
      list :| 0 < list < LISTS && Near(nvm.next, nvm.head[list], id);
      cpu := list - 1;
    }
    ghost var x := NearQueued(nvm.Lists(), nvm.own, nvm.free, cpu, list, id);
    Drain(nvm, cpu, id, x);
    inode := new Inode(1);
    var ok := inode.InitInode(nvm, AsWritten(0), cpu);
  }

  // ------------------------------------------------------------- a write of no bytes

  /** An empty file, position 100, a write of no bytes: the file has 100 bytes. */
  method GrowsByNothing() returns (nvm: Nvm, inode: Inode)
    ensures inode.LogSound(nvm) && |inode.View(nvm).data| == 100
  {
    hide Inv, MemOk, Stored, StoredLog, SizeOk, EndPos, ZeroTail, FileBytes, Entries, AllMine;
    nvm, inode := OneFile();
    WordFits(100);
    var r := inode.AtfsLseek(nvm, 100, SEEK_SET);
    var ok; ghost var q;
    ok, q := inode.AtfsWriteNothing(nvm);
  }
}
