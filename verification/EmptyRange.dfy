/** A run in which the collector records an empty range: the file is right before and
    after, and the entry the collector appends says that page 1 begins at 4096 and ends
    at 2. */
module EmptyRange {
  import opened PageLists
  import opened Layout
  import opened LogModel
  import opened Region
  import opened WriteModel
  import opened FileSpec
  import opened LogStore
  import opened LogMeaning
  import opened WriteSteps
  import opened GcSteps
  import opened GcTask
  import opened Inodes
  import opened Departures

  /** The entry of two bytes written at 4095 of an empty file. */
  ghost predicate Straddles(e: Ent) {
    |e.pages| == 2 && FirstPage(e.rec) == 0 && e.rec.endOff == 2
  }

  lemma StraddlesKept(log: seq<LogPage>, log': seq<LogPage>)
    requires Entries(log) != [] && Straddles(Entries(log)[0]) && Grown(log, log')
    ensures Entries(log') != [] && Straddles(Entries(log')[0])
  {
    hide Entries;
    assert SameEntry(Entries(log)[0], Entries(log')[0]);
  }

  /** The one entry of the log covers both pages the file has. */
  lemma FirstEntry(m: Mem, ino: nat, log: seq<LogPage>, index: map<nat, int>)
    requires Stored(m, ino, log, index) && |Entries(log)| == 1 && Recorded(4095, 2, 0, Entries(log)[0]) && 0 in index && 1 in index
    ensures Straddles(Entries(log)[0])
  {
    hide Stored, StoredLog, LogOk, Entries, LogSpans, Cover, BacksOk;
    StoredIs(m, ino, log, index);
    StoredMem(m, ino, log, index);
    PagesOfLog(m, ino, log);
    StoredCovers(m, ino, log, index, 0);
    var k, s, i := IndexedEntry(log, LogSpans(log), index, 0);
    StoredCovers(m, ino, log, index, 1);
    var k', s', i' := IndexedEntry(log, LogSpans(log), index, 1);
    assert Touched(4095, 2, |Entries(log)[0].pages| - 1);
  }

  lemma StoredCovers(m: Mem, ino: nat, log: seq<LogPage>, index: map<nat, int>, fp: nat)
    requires Stored(m, ino, log, index)
    ensures Cover(LogSpans(log), fp) == Lookup(index, fp)
  {
  }

  /** Page 0 is overwritten by 84 entries, page 1 is not. */
  lemma DeadHere(m: Mem, ino: nat, log: seq<LogPage>, index: map<nat, int>, s: nat)
    requires Stored(m, ino, log, index) && |log| == 2 && |log[0].ents| == SLOTS && |log[1].ents| == 1 && s < SLOTS
    requires Straddles(log[0].ents[0]) && Overwrites(log[0].ents, 1, SLOTS) && GivesPage(log[1].ents[0], 2)
    ensures log[0].ents[s].dead == if s == SLOTS - 1 then {} else {0}
  {
    hide Stored, StoredLog, LogOk;
    StoredIs(m, ino, log, index);
    StoredMem(m, ino, log, index);
    LogEntry(m, ino, log, 0, s);
    BitIffLaterWrite(m, ino, log, index, 0, s, 0);
    if s == 0 {
      BitIffLaterWrite(m, ino, log, index, 0, s, 1);
    }
    if s < SLOTS - 1 {
      var k', s' := 0, SLOTS - 1;
      assert 0 <= k' < |log| && 0 <= s' < |log[k'].ents| && s' > s && In(SpanOf(log[k'].ents[s']), FirstPage(log[0].ents[s].rec) + 0);
    }
  }

  ghost predicate HalfLive(ents: seq<Ent>) {
    && |ents| == SLOTS && Straddles(ents[0])
    && forall s | 0 <= s < SLOTS :: (s > 0 ==> |ents[s].pages| == 1) && ents[s].dead == if s == SLOTS - 1 then {} else {0}
  }

  lemma HalfLiveLog(m: Mem, ino: nat, log: seq<LogPage>, index: map<nat, int>)
    requires Stored(m, ino, log, index) && |Entries(log)| == SLOTS + 1
    requires Straddles(Entries(log)[0]) && Overwrites(Entries(log), 1, SLOTS) && GivesPage(Entries(log)[SLOTS], 2)
    ensures |log| == 2 && |log[1].ents| == 1 && HalfLive(log[0].ents)
  {
    hide Stored, StoredLog, LogOk, Entries;
    StoredIs(m, ino, log, index);
    StoredMem(m, ino, log, index);
    PagesOfLog(m, ino, log);
    assert forall s | 0 <= s < SLOTS :: log[0].ents[s] == Entries(log)[s];
    assert log[1].ents[0] == Entries(log)[SLOTS];
    forall s | 0 <= s < SLOTS
      ensures (s > 0 ==> |log[0].ents[s].pages| == 1) && log[0].ents[s].dead == if s == SLOTS - 1 then {} else {0}
    {
      DeadHere(m, ino, log, index, s);
    }
  }

  lemma {:induction false} HalfCounters(ents: seq<Ent>)
    requires ents != [] && |ents[0].pages| == 2 && (forall s | 0 < s < |ents| :: |ents[s].pages| == 1)
    requires forall s | 0 <= s < |ents| :: ents[s].dead == {0}
    ensures CountersOf(ents) == Counters(|ents|, |ents| - 1, |ents| + 1, |ents|)
  {
    if |ents| == 1 {
      assert ents[..0] == [];
    } else {
      HalfCounters(ents[..|ents| - 1]);
    }
  }

  /** The page is collected: page 1 and the last copy of page 0 are moved. */
  lemma HalfPicked(pg: LogPage, size: nat)
    requires HalfLive(pg.ents)
    ensures Picked(pg)
    ensures BlockRuns(pg.ents, size) == [Piece(pg.ents[0], size, 1, 2), Piece(pg.ents[SLOTS - 1], size, 0, 1)]
  {
    hide BlockRuns;
    var ents, last := pg.ents[..SLOTS - 1], pg.ents[SLOTS - 1];
    assert ents + [last] == pg.ents && pg.ents[..SLOTS - 1] == ents;
    HalfCounters(ents);
    CollectableIff(pg.ents);
    FirstRuns(pg.ents, size);
    StraddleRuns(pg.ents[0], size);
    assert pg.ents[1..] == ents[1..] + [last];
    DeadRuns(ents[1..], size, last);
  }

  lemma HalfMoved(log: seq<LogPage>, size: nat)
    requires |log| == 2 && HalfLive(log[0].ents)
    ensures Moved(log[..|log| - 1], size) == [Piece(log[0].ents[0], size, 1, 2), Piece(log[0].ents[SLOTS - 1], size, 0, 1)]
  {
    hide BlockRuns, Picked;
    HalfPicked(log[0], size);
    assert log[..1][..0] == [];
  }

  lemma FirstRuns(ents: seq<Ent>, size: nat)
    requires ents != []
    ensures BlockRuns(ents, size) == LiveRuns(ents[0], size, 0) + BlockRuns(ents[1..], size)
  {
  }

  lemma StraddleRuns(e: Ent, size: nat)
    requires |e.pages| == 2 && e.dead == {0}
    ensures LiveRuns(e, size, 0) == [Piece(e, size, 1, 2)]
  {
    assert RunEnd({0}, 2, 0, true) == 1;
    assert RunEnd({0}, 2, 1, false) == 2;
    assert LiveRuns(e, size, 2) == [];
    assert LiveRuns(e, size, 1) == [Piece(e, size, 1, 2)];
  }

  lemma EmptyAppended(log: seq<LogPage>, log': seq<LogPage>, size: nat)
    requires |log| == 2 && HalfLive(log[0].ents)
    requires var n := |log| - 1; Entries(log') == Entries(Survivors(log[..n]) + [log[n]]) + Moved(log[..n], size)
    ensures exists n :: 0 <= n < |Entries(log')| && Entries(log')[n].rec.startOff == 4096 && Entries(log')[n].rec.endOff == 2
  {
    hide Entries, Moved;
    HalfMoved(log, size);
    var n := |Entries(Survivors(log[..1]) + [log[1]])|;
    assert Entries(log')[n] == Piece(log[0].ents[0], size, 1, 2);
  }

  // ----------------------------------------------------------------------- the run

  lemma FirstWriteCost()
    ensures PageCount(2, 4095) == 2 && ChunkCount(2) == 1 && WriteCost(2, 4095) == 2 * FILL_MAX
    ensures TouchedPages(4095, 2) == {0, 1}
  {
  }

  method FirstWrite() returns (nvm: Nvm, inode: Inode)
    ensures inode.Ready(nvm) && inode.ino == 0 && AllMine(nvm.own, 0) && nvm.Room() + 3 * FILL_MAX >= NUM_PAGES
    ensures |Entries(inode.log)| == 1 && Straddles(Entries(inode.log)[0])
    ensures fresh(nvm) && fresh(inode)
  {
    hide Inv, MemOk, Stored, SizeOk, EndPos, ZeroTail, FileBytes, Entries, AllMine, Wrote, Grown, HeldKept, ChunkCount, PageCount,
         WriteCost, Recorded, Splice, Straddles, TouchedPages;
    nvm, inode := OneFile();
    WordFits(4095);
    FirstWriteCost();
    var reply := inode.AtfsLseek(nvm, 4095, SEEK_SET);
    ghost var m, log0 := nvm.M(), inode.log;
    var ok;
    ok, reply := inode.AtfsWrite(nvm, Repaired, [1, 1]);
    HeldMine(m, nvm.M(), 0);
    assert Recorded(4095, 2, 0, Entries(inode.log)[0]);
    FirstEntry(nvm.M(), 0, inode.log, inode.index);
  }

  /** Two bytes at 4095, 84 times page 0, once page 2. */
  method HalfLivePage() returns (nvm: Nvm, inode: Inode)
    ensures inode.Ready(nvm) && |inode.log| == 2 && HalfLive(inode.log[0].ents) && nvm.Room() >= 2 * FILL_MAX
    ensures fresh(nvm) && fresh(inode)
  {
    hide Inv, MemOk, Stored, SizeOk, EndPos, ZeroTail, FileBytes, Entries, GivesPage, Overwrites, AllMine, Grown, Straddles, HalfLive;
    nvm, inode := FirstWrite();
    NoneAfterFirst(Entries(inode.log));
    var i := 1;
    while i < SLOTS
      invariant 0 < i <= SLOTS && inode.Ready(nvm) && inode.ino == 0 && fresh(nvm) && fresh(inode) && AllMine(nvm.own, 0)
      invariant nvm.Room() + FILL_MAX + 2 * FILL_MAX * i >= NUM_PAGES
      invariant |Entries(inode.log)| == i && Overwrites(Entries(inode.log), 1, i) && Straddles(Entries(inode.log)[0])
    {
      ghost var log0 := inode.log;
      Rewrite(nvm, inode, 1, i);
      StraddlesKept(log0, inode.log);
      i := i + 1;
    }
    WordFits(2 * PAGE_SIZE);
    SecondPage();
    var reply := inode.AtfsLseek(nvm, 2 * PAGE_SIZE, SEEK_SET);
    ghost var log0 := inode.log;
    WritePage(nvm, inode, 2, 1, SLOTS);
    StraddlesKept(log0, inode.log);
    HalfLiveLog(nvm.M(), 0, inode.log, inode.index);
  }

  /** And a collection of the repaired code: an entry it appends records an empty range. */
  method EmptyRangeRun() returns (nvm: Nvm, inode: Inode)
    ensures inode.Sound(nvm)
    ensures exists n :: 0 <= n < |Entries(inode.log)| && Entries(inode.log)[n].rec.startOff == 4096 && Entries(inode.log)[n].rec.endOff == 2
  {
    hide Inv, MemOk, Stored, StoredLog, SizeOk, EndPos, ZeroTail, Entries, HalfLive, Moved, Survivors, Extends, OthersKept, LastFreed, BacksOk;
    nvm, inode := HalfLivePage();
    ghost var log0 := inode.log;
    HalfMoved(log0, inode.iSize);
    var ok := inode.StartGcTask(nvm, Repaired);
    EmptyAppended(log0, inode.log, inode.iSize);
  }

  lemma NoneAfterFirst(ents: seq<Ent>)
    requires |ents| == 1
    ensures Overwrites(ents, 1, 1)
  {
  }

  lemma SecondPage()
    ensures FileOff(2) == 2 * PAGE_SIZE
  {
  }
}
