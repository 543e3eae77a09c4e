/** A run in which a collection frees pages: one file, page 0 written 85 times, page 1
    once, then `start_gc_task`. */
module CollectRun {
  import opened PageLists
  import opened Layout
  import opened LogModel
  import opened Region
  import opened WriteModel
  import opened FileSpec
  import opened LogStore
  import opened LogMeaning
  import opened WriteSteps
  import opened GcSteps
  import opened GcTask
  import opened Inodes
  import opened FileSystems
  import opened Departures

  /** The log was the full page and the tail page; it is the tail page with the one live
      page of the other behind its own, and the other and its 84 overwritten data
      pages are free. */
  ghost predicate HalfFreed(was: seq<LogPage>, log: seq<LogPage>, own: seq<Owner<Use>>) {
    && |was| == 2 && |was[0].ents| == 85 && |was[1].ents| == 1
    && |log| == 1 && log[0].id == was[1].id && |log[0].ents| == 2
    && log[0].ents[0] == was[1].ents[0] && log[0].ents[1].pages == was[0].ents[84].pages
    && 0 <= was[0].id < |own| && own[was[0].id].Free?
    && forall s | 0 <= s < 84 :: |was[0].ents[s].pages| == 1 && PageFree(own, was[0].ents[s].pages[0])
  }

  ghost predicate PageFree(own: seq<Owner<Use>>, p: int) {
    0 <= p < |own| && own[p].Free?
  }

  lemma Freeing(m: Mem, m': Mem, log: seq<LogPage>, log': seq<LogPage>, index: map<nat, int>, index': map<nat, int>, q: int, size: nat)
    requires BeforeCollect(m, 0, log, index, q) && StoredLog(m', 0, log', index') && |m'.own| == |m.own|
    requires AllMine(m'.own, 0) && Compacted(log, log', size)
    ensures HalfFreed(log, log', m'.own)
  {
    hide Stored, StoredLog, Extends, Entries, OneLive, Moved, Survivors, AllMine;
    MovedOne(log, size);
    OneLiveFull(log[0].ents);
    assert [] + [log[1]] == [log[1]];
    EntriesOne([log[1]]);
    StoredIs(m, 0, log, index);
    StoredMem(m, 0, log, index);
    StoredMem(m', 0, log', index');
    PagesOfLog(m', 0, log');
    ExtendsFirst([log[1]], log');
    WordBefore(m, 0, log, index, q);
    var e := Piece(log[0].ents[SLOTS - 1], size, 0, 1);
    assert log'[0].ents == log[1].ents + [e] && e.pages == [q];
    NotHeld(m', log', index', log[0].id, m, log, index);
    forall s | 0 <= s < 84
      ensures |log[0].ents[s].pages| == 1 && PageFree(m'.own, log[0].ents[s].pages[0])
    {
      OneLiveEntry(log[0].ents, s);
      assert log[0].ents[s].pages[0] in log[0].ents[s].pages;
      NotHeld(m', log', index', log[0].ents[s].pages[0], m, log, index);
    }
  }

  lemma OneLiveEntry(ents: seq<Ent>, s: nat)
    requires OneLive(ents) && s < SLOTS
    ensures |ents[s].pages| == 1
  {
  }

  /** A page of the log before that the log afterwards does not have is free. */
  lemma NotHeld(m': Mem, log': seq<LogPage>, index': map<nat, int>, p: int, m: Mem, log: seq<LogPage>, index: map<nat, int>)
    requires StoredLog(m', 0, log', index') && AllMine(m'.own, 0) && |m'.own| == |m.own|
    requires Stored(m, 0, log, index) && |log| == 2 && |log[0].ents| == SLOTS && |log[1].ents| == 1
    requires |log'| == 1 && log'[0].id == log[1].id && |log'[0].ents| == 2
    requires log'[0].ents[0] == log[1].ents[0] && log'[0].ents[1].pages == log[0].ents[SLOTS - 1].pages
    requires p == log[0].id || exists s :: 0 <= s < SLOTS - 1 && p in log[0].ents[s].pages
    ensures PageFree(m'.own, p)
  {
    hide LogOk, Stored, StoredLog, Accounted;
    StoredIs(m, 0, log, index);
    StoredMem(m, 0, log, index);
    LogIds(m, 0, log, 0);
    assert Ids(log)[0] == log[0].id && Ids(log)[1] == log[1].id;
    DataRoles(m, 0, log, 0, SLOTS - 1);
    DataRoles(m, 0, log, 1, 0);
    if p != log[0].id {
      var s :| 0 <= s < SLOTS - 1 && p in log[0].ents[s].pages;
      DataRoles(m, 0, log, 0, s);
    }
    forall role: Role ensures !Accounted(role, p, log', {}) {
      NotAccounted(role, p, log');
    }
    MineAccounted(m', log', index', p);
  }

  lemma MineAccounted(m: Mem, log: seq<LogPage>, index: map<nat, int>, p: int)
    requires StoredLog(m, 0, log, index) && AllMine(m.own, 0) && 0 <= p < |m.own|
    requires forall role: Role :: !Accounted(role, p, log, {})
    ensures m.own[p].Free?
  {
    hide LogOk, Accounted;
  }

  /** One file system with one file, and an empty log. */
  method OneInode() returns (fs: FileSystem, inode: Inode)
    ensures fs.inodes == [inode] && fs.order == [0] && inode.Ready(fs.nvm) && inode.ino == 0 && AllMine(fs.nvm.own, 0)
    ensures Entries(inode.log) == [] && inode.View(fs.nvm).pages == {} && fs.nvm.Room() + FILL_MAX >= NUM_PAGES
    ensures fresh(fs) && fresh(fs.nvm) && fresh(inode)
  {
    hide Inv, MemOk, Stored, SizeOk, EndPos, ZeroTail, FileBytes, Entries, Inode.Ready, Inode.View, Listed;
    fs := new FileSystem(NUM_PAGES);
    var ok := fs.Create();
    inode := fs.inodes[0];
    assert fs.View().files == [File([], 0, {})];
    assert fs.View().files[0] == inode.View(fs.nvm);
    assert fs.Logs()[0] == inode.log;
    assert fs.View().order == [0];
  }

  /** The run.  `was` is the log before the collection. */
  method CollectionFrees() returns (fs: FileSystem, ghost was: seq<LogPage>)
    ensures fs.Ok() && |fs.inodes| == 1 && HalfFreed(was, fs.inodes[0].log, fs.nvm.own)
  {
    hide Inv, MemOk, Stored, StoredLog, BacksOk, SizeOk, EndPos, ZeroTail, FileBytes, Entries, GivesPage, Overwrites, AllMine, HalfFreed,
         BeforeCollect, Compacted, Inode.View;
    var inode;
    fs, inode := OneInode();
    WriteFull(fs.nvm, inode);
    OneInOrder(fs, inode);
    was := inode.log;
    ghost var m, index := fs.nvm.M(), inode.index;
    ghost var q := OverwrittenLog(m, 0, was, index);
    var ok := fs.Collect();
    ghost var after := fs.inodes[0];
    OneAfter(fs);
    Freeing(m, fs.nvm.M(), was, after.log, index, after.index, q, |after.View(fs.nvm).data|);
  }

  lemma OneInOrder(fs: FileSystem, inode: Inode)
    requires fs.inodes == [inode] && fs.order == [0] && inode.Ready(fs.nvm) && inode.ino == 0 && AllMine(fs.nvm.own, 0)
    requires inode.View(fs.nvm).pages <= {0, 1}
    ensures fs.Ok() && fs.Logs() == [inode.log] && fs.View().files == [inode.View(fs.nvm)]
    ensures CallCost(fs.View(), Collection) <= 2 * FILL_MAX
  {
    hide Inode.Ready, Inode.View, Inv, MemOk;
    assert inode.Ready(fs.nvm) ==> fs.nvm.Valid() by { ReadyValid(fs.nvm, inode); }
    SubsetSize(inode.View(fs.nvm).pages, {0, 1});
  }

  lemma ReadyValid(nvm: Nvm, inode: Inode)
    requires inode.Ready(nvm)
    ensures nvm.Valid()
  {
    hide Inv, MemOk, Stored, SizeOk, EndPos, ZeroTail;
  }

  lemma OneAfter(fs: FileSystem)
    requires fs.Ok() && |fs.inodes| == 1
    ensures StoredLog(fs.nvm.M(), 0, fs.inodes[0].log, fs.inodes[0].index) && AllMine(fs.nvm.own, 0)
  {
    hide Inv, MemOk, Stored, StoredLog, SizeOk, EndPos, ZeroTail, Listed;
    assert fs.inodes[0].Ready(fs.nvm) && fs.inodes[0].ino == 0;
    StoredIs(fs.nvm.M(), 0, fs.inodes[0].log, fs.inodes[0].index);
  }
}
