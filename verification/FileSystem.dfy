/** Several inodes on one region: every run of creations, reads, writes, seeks and
    collections refines a collection of flat files. */
module FileSystems {
  import opened Chains
  import opened PageLists
  import opened Layout
  import opened LogModel
  import opened Region
  import opened WriteModel
  import opened FileSpec
  import opened LogStore
  import opened LogMeaning
  import opened WriteSteps
  import opened GcSteps
  import opened GcTask
  import opened Recency
  import opened Inodes

  // -------------------------------------------------------------- specification

  /** A call, on inode `i` where it concerns one.  Inodes are given, not looked up. */
  datatype Call = Create | On(i: nat, op: Op) | Collection

  /** The flat files, and the inode numbers in order of last use. */
  datatype Disk = Disk(files: seq<File>, order: seq<nat>)

  predicate Named(d: Disk, c: Call) {
    c.On? ==> c.i < |d.files| && c.i in d.order
  }

  /** `b` is the build of the writes; as written the caller has to be cautious. */
  predicate Covered(b: Build, d: Disk, c: Call) {
    Named(d, c) && (c.On? ==> Admits(b, d.files[c.i], c.op))
  }

  /** The order after a call: `lseek` does not count as a use. */
  function Reorder(order: seq<nat>, c: Call, newest: nat): seq<nat>
    requires c.On? ==> c.i in order
  {
    if c.Create? then [newest] + order
    else if c.Collection? then Rotate(order)
    else if c.op.Seek? then order
    else ToFront(order, IndexOf(order, c.i))
  }

  /** What a call does to the files: a collection does nothing. */
  function Step(d: Disk, c: Call): Disk
    requires Named(d, c)
  {
    Disk(if c.Create? then d.files + [File([], 0, {})]
         else if c.Collection? then d.files
         else d.files[c.i := After(d.files[c.i], c.op)],
         Reorder(d.order, c, |d.files|))
  }

  /** What a call does to the logs: a creation adds an empty one, a write changes that of
      its inode, a collection compacts that of the last inode of the list; all others
      stay. */
  ghost predicate LogsStep(d: Disk, c: Call, logs: seq<seq<LogPage>>, logs': seq<seq<LogPage>>) {
    match c
    case Create => |logs'| == |logs| + 1 && logs'[..|logs|] == logs && Entries(logs'[|logs|]) == []
    case On(i, op) => i < |logs| && OnlyLog(logs, logs', i) && (op.Write? || op.Pwrite? || logs'[i] == logs[i])
    case Collection =>
      if d.order == [] then logs' == logs
      else
        var i := d.order[|d.order| - 1];
        i < |logs| == |d.files| && OnlyLog(logs, logs', i) && Compacted(logs[i], logs'[i], |d.files[i].data|)
  }

  ghost predicate OnlyLog(logs: seq<seq<LogPage>>, logs': seq<seq<LogPage>>, i: nat) {
    |logs'| == |logs| && forall j | 0 <= j < |logs| && j != i :: logs'[j] == logs[j]
  }

  /** The logs before, between and after the calls of a run. */
  ghost predicate Traced(b: Build, d: Disk, cs: seq<Call>, trace: seq<seq<seq<LogPage>>>) {
    && |trace| == |cs| + 1
    && forall k: nat | k < |cs| :: Play(b, d, cs[..k]).Some? && LogsStep(Play(b, d, cs[..k]).value.disk, cs[k], trace[k], trace[k + 1])
  }

  lemma TraceMore(b: Build, d: Disk, cs: seq<Call>, trace: seq<seq<seq<LogPage>>>, c: Call, logs: seq<seq<LogPage>>)
    requires Traced(b, d, cs, trace) && Play(b, d, cs).Some? && LogsStep(Play(b, d, cs).value.disk, c, trace[|cs|], logs)
    ensures Traced(b, d, cs + [c], trace + [logs])
  {
    hide Play, LogsStep;
    forall k: nat | k < |cs + [c]|
      ensures Play(b, d, (cs + [c])[..k]).Some?
      ensures LogsStep(Play(b, d, (cs + [c])[..k]).value.disk, (cs + [c])[k], (trace + [logs])[k], (trace + [logs])[k + 1])
    {
      assert (cs + [c])[..k] == if k < |cs| then cs[..k] else cs;
    }
  }

  /** A collection answers nothing. */
  function Answer(d: Disk, c: Call): seq<Reply>
    requires Named(d, c)
  {
    if c.Collection? then [] else if c.Create? then [Number(0)] else [ReplyOf(d.files[c.i], c.op)]
  }

  datatype Outcome = Outcome(disk: Disk, answers: seq<Reply>)

  /** A whole run, if each of its calls is covered where it comes. */
  function Play(b: Build, d: Disk, cs: seq<Call>): Option<Outcome> {
    if cs == [] then Some(Outcome(d, []))
    else
      var before, c := Play(b, d, cs[..|cs| - 1]), cs[|cs| - 1];
      if before.None? || !Covered(b, before.value.disk, c) then None
      else
        var o := before.value;
        Some(Outcome(Step(o.disk, c), o.answers + Answer(o.disk, c)))
  }

  /** Pages of the global list that are enough for a call: a collection takes one refill at
      most per page of the file it collects. */
  function CallCost(d: Disk, c: Call): nat {
    if c.Create? then FILL_MAX
    else if c.On? then (if c.i < |d.files| then Cost(d.files[c.i], c.op) else 0)
    else if d.order == [] || d.order[|d.order| - 1] >= |d.files| then 0
    else FILL_MAX * |d.files[d.order[|d.order| - 1]].pages|
  }

  /** And for a run. */
  function RunCost(b: Build, d: Disk, cs: seq<Call>): nat
    requires Play(b, d, cs).Some?
  {
    if cs == [] then 0
    else RunCost(b, d, cs[..|cs| - 1]) + CallCost(Play(b, d, cs[..|cs| - 1]).value.disk, cs[|cs| - 1])
  }

  lemma NoRunCost(b: Build, d: Disk)
    ensures RunCost(b, d, []) == 0
  {
  }

  lemma {:induction false} CostPrefix(b: Build, d: Disk, cs: seq<Call>, n: nat)
    requires Play(b, d, cs).Some? && n < |cs|
    ensures Play(b, d, cs[..n]).Some? && Play(b, d, cs[..n + 1]).Some?
    ensures RunCost(b, d, cs[..n + 1]) == RunCost(b, d, cs[..n]) + CallCost(Play(b, d, cs[..n]).value.disk, cs[n])
    ensures RunCost(b, d, cs[..n + 1]) <= RunCost(b, d, cs)
  {
    PlayPrefix(b, d, cs, n);
    assert cs[..n + 1][..n] == cs[..n];
    if n == |cs| - 1 {
      assert cs[..n + 1] == cs;
    } else {
      var rest := cs[..|cs| - 1];
      CostPrefix(b, d, rest, n);
      assert rest[..n] == cs[..n] && rest[..n + 1] == cs[..n + 1];
    }
  }

  lemma {:induction false} PlayPrefix(b: Build, d: Disk, cs: seq<Call>, n: nat)
    requires Play(b, d, cs).Some? && n < |cs|
    ensures Play(b, d, cs[..n]).Some? && Covered(b, Play(b, d, cs[..n]).value.disk, cs[n])
    ensures cs[..n + 1][..n] == cs[..n]
    ensures var o := Play(b, d, cs[..n]).value;
      Play(b, d, cs[..n + 1]) == Some(Outcome(Step(o.disk, cs[n]), o.answers + Answer(o.disk, cs[n])))
  {
    hide Covered, Step, Answer;
    assert cs[..n + 1][..n] == cs[..n];
    if n == |cs| - 1 {
      assert cs[..n + 1] == cs;
    } else {
      var rest := cs[..|cs| - 1];
      PlayPrefix(b, d, rest, n);
      assert rest[..n] == cs[..n] && rest[..n + 1] == cs[..n + 1];
    }
  }

  /** The calls other than collections. */
  function Uncollected(cs: seq<Call>): seq<Call> {
    if cs == [] then []
    else Uncollected(cs[..|cs| - 1]) + if cs[|cs| - 1].Collection? then [] else [cs[|cs| - 1]]
  }

  /** The inodes the list knows are those there are. */
  ghost predicate Listed(d: Disk) {
    forall i: nat :: i in d.order <==> i < |d.files|
  }

  lemma StepListed(d: Disk, c: Call)
    requires Named(d, c) && Listed(d)
    ensures Listed(Step(d, c))
  {
    if c.Collection? && d.order != [] {
      ToFrontAt(d.order, |d.order| - 1);
    } else if c.On? && !c.op.Seek? {
      ToFrontAt(d.order, IndexOf(d.order, c.i));
    }
  }

  lemma StepSameFiles(b: Build, d: Disk, e: Disk, c: Call)
    requires Covered(b, d, c) && !c.Collection? && Listed(d) && Listed(e) && d.files == e.files
    ensures Covered(b, e, c) && Named(d, c) && Step(e, c).files == Step(d, c).files && Answer(e, c) == Answer(d, c)
  {
  }

  /** In this specification collections, wherever they come in a run, change no file and
      no answer; `FileSystem.Run` carries that over to the region. */
  lemma {:induction false} CollectionsInvisible(b: Build, d: Disk, cs: seq<Call>)
    requires Listed(d) && Play(b, d, cs).Some?
    ensures Play(b, d, Uncollected(cs)).Some?
    ensures Play(b, d, cs).value.disk.files == Play(b, d, Uncollected(cs)).value.disk.files
    ensures Play(b, d, cs).value.answers == Play(b, d, Uncollected(cs)).value.answers
    ensures Listed(Play(b, d, cs).value.disk) && Listed(Play(b, d, Uncollected(cs)).value.disk)
  {
    hide Listed, Admits, Step, Answer;
    if cs != [] {
      var rest, c := cs[..|cs| - 1], cs[|cs| - 1];
      CollectionsInvisible(b, d, rest);
      var x, y := Play(b, d, rest).value.disk, Play(b, d, Uncollected(rest)).value.disk;
      StepListed(x, c);
      if c.Collection? {
        CollectionStep(x);
        assert Uncollected(cs) == Uncollected(rest);
      } else {
        var u := Uncollected(rest);
        assert (u + [c])[..|u|] == u;
        StepSameFiles(b, x, y, c);
        StepListed(y, c);
      }
    }
  }

  lemma CollectionStep(d: Disk)
    ensures Named(d, Collection) && Step(d, Collection).files == d.files && Answer(d, Collection) == []
  {
  }

  // -------------------------------------------------------------- order of last use

  /** When each inode was last used, if call `c` comes at time `now`: a read or a write
      uses its inode, a creation the new one, a collection the one whose last use is
      oldest, and a seek uses none. */
  ghost function Touch(time: map<nat, int>, c: Call, newest: nat, now: int): map<nat, int> {
    match c
    case Create => time[newest := now]
    case On(i, Seek(_, _)) => time
    case On(i, _) => time[i := now]
    case Collection => if time.Keys == {} then time else time[Oldest(time) := now]
  }

  function Created(cs: seq<Call>): nat {
    if cs == [] then 0 else Created(cs[..|cs| - 1]) + if cs[|cs| - 1].Create? then 1 else 0
  }

  /** When each inode was last used, from the calls alone: call `k` comes at time `k`;
      before the run there were `n` inodes, last used at `time`. */
  ghost function LastUse(time: map<nat, int>, n: nat, cs: seq<Call>): map<nat, int> {
    if cs == [] then time
    else
      var rest := cs[..|cs| - 1];
      Touch(LastUse(time, n, rest), cs[|cs| - 1], n + Created(rest), |rest|)
  }

  lemma StepByTime(d: Disk, c: Call, time: map<nat, int>, now: int)
    requires Named(d, c) && Listed(d) && ByTime(d.order, time, now)
    ensures ByTime(Step(d, c).order, Touch(time, c, |d.files|, now), now + 1)
  {
    hide ByTime, ToFront;
    match c
    case Create =>
      NewIsNewest(d.order, time, now, |d.files|);
    case On(i, Seek(_, _)) =>
      TimePasses(d.order, time, now);
    case On(i, _) =>
      FrontIsNewest(d.order, time, now, IndexOf(d.order, i));
    case Collection =>
      if d.order == [] {
        TimeOfNone(time, now);
        TimePasses(d.order, time, now);
      } else {
        LastIsOldest(d.order, time, now);
        FrontIsNewest(d.order, time, now, |d.order| - 1);
      }
  }

  lemma TimeOfNone(time: map<nat, int>, now: int)
    requires ByTime([], time, now)
    ensures time.Keys == {}
  {
    forall x ensures x !in time {
      assert x in [] <==> x in time;
    }
  }

  /** After any run of calls the list is in order of last use. */
  lemma {:induction false} RunKeepsRecency(b: Build, time: map<nat, int>, d: Disk, cs: seq<Call>)
    requires Play(b, d, cs).Some? && Listed(d) && ByTime(d.order, time, 0)
    ensures var d' := Play(b, d, cs).value.disk;
      Listed(d') && |d'.files| == |d.files| + Created(cs) && ByTime(d'.order, LastUse(time, |d.files|, cs), |cs|)
  {
    hide ByTime, Step, Answer, Touch, Listed, Named, Covered;
    if cs != [] {
      var rest, c := cs[..|cs| - 1], cs[|cs| - 1];
      var before := Play(b, d, rest).value.disk;
      RunKeepsRecency(b, time, d, rest);
      CoveredNamed(b, before, c);
      StepByTime(before, c, LastUse(time, |d.files|, rest), |rest|);
      StepListed(before, c);
      StepCreates(before, c);
    }
  }

  lemma CoveredNamed(b: Build, d: Disk, c: Call)
    requires Covered(b, d, c)
    ensures Named(d, c)
  {
  }

  lemma StepCreates(d: Disk, c: Call)
    requires Named(d, c)
    ensures |Step(d, c).files| == |d.files| + if c.Create? then 1 else 0
  {
  }

  /** So the inode a collection takes after any run, the last of the list, is the one
      whose last use is oldest. */
  lemma LastIsLeastRecent(b: Build, time: map<nat, int>, d: Disk, cs: seq<Call>)
    requires Play(b, d, cs).Some? && Listed(d) && ByTime(d.order, time, 0) && |d.files| + Created(cs) > 0
    ensures var order, last := Play(b, d, cs).value.disk.order, LastUse(time, |d.files|, cs);
      order != [] && last.Keys != {} && order[|order| - 1] == Oldest(last)
  {
    hide Play, LastUse, ByTime;
    RunKeepsRecency(b, time, d, cs);
    var d' := Play(b, d, cs).value.disk;
    assert 0 in d'.order;
    LastIsOldest(d'.order, LastUse(time, |d.files|, cs), |cs|);
  }

  /** Each of the four data calls is a use, now, and brings its inode to the front. */
  lemma DataCallIsUse(time: map<nat, int>, d: Disk, cs: seq<Call>, i: nat, op: Op)
    requires Named(d, On(i, op)) && (op.Read? || op.Write? || op.Pread? || op.Pwrite?)
    ensures Step(d, On(i, op)).order != [] && Step(d, On(i, op)).order[0] == i
    ensures LastUse(time, |d.files|, cs + [On(i, op)]) == LastUse(time, |d.files|, cs)[i := |cs|]
  {
    assert (cs + [On(i, op)])[..|cs|] == cs;
    FirstAtFront(d.order, IndexOf(d.order, i));
  }

  // ------------------------------------------------------------ inodes side by side

  lemma OtherBacks(m: Mem, m': Mem, ino: nat, other: nat, log: seq<LogPage>)
    requires OthersKept(m, m', ino) && other != ino && LogOk(m, other, log, 0) && BacksOk(m.back, log)
    ensures BacksOk(m'.back, log)
  {
    hide LogOk;
    forall k, s | 0 <= k < |log| && 0 <= s < |log[k].ents|
      ensures BackOk(m'.back, Pos(log[k].id, s), log[k].ents[s])
    {
      DataHeld(m, other, log, k, s);
      assert BackOk(m.back, Pos(log[k].id, s), log[k].ents[s]);
    }
  }

  lemma OtherNoLeak(m: Mem, m': Mem, ino: nat, other: nat, log: seq<LogPage>)
    requires OthersKept(m, m', ino) && other != ino && NoLeak(m.own, other, log, {})
    ensures NoLeak(m'.own, other, log, {})
  {
    hide InEntry, Ids;
    forall p | 0 <= p < |m'.own| && m'.own[p].Held? && m'.own[p].holder.ino == other
      ensures Accounted(m'.own[p].holder.role, p, log, {})
    {
      assert m.own[p] == m'.own[p];
    }
  }

  /** Where the index of another inode points, the bytes stay. */
  lemma OtherBytes(m: Mem, m': Mem, ino: nat, other: nat, log: seq<LogPage>, index: map<nat, int>, a: nat)
    requires OthersKept(m, m', ino) && other != ino && Stored(m, other, log, index)
    ensures ByteAt(m'.bytes, index, a) == ByteAt(m.bytes, index, a)
  {
    hide LogOk, BacksOk, LogSpans, MarksAll, NoLeak, Cover, FirstPage;
    StoredSizes(m, other, log, index);
    var fp := a / PAGE_SIZE;
    if fp in index {
      assert Cover(LogSpans(log), fp) == Lookup(index, fp);
      var k, s, i := IndexedEntry(log, LogSpans(log), index, fp);
      DataHeld(m, other, log, k, s);
    }
  }

  /** What one inode's call does leaves the other inodes stored, with their files. */
  lemma OtherStays(m: Mem, m': Mem, ino: nat, other: nat, log: seq<LogPage>, index: map<nat, int>, size: nat)
    requires OthersKept(m, m', ino) && other != ino && Stored(m, other, log, index)
    ensures Stored(m', other, log, index)
    ensures FileBytes(m'.bytes, index, size) == FileBytes(m.bytes, index, size)
    ensures ZeroTail(m.bytes, index, size) ==> ZeroTail(m'.bytes, index, size)
  {
    hide LogOk, BacksOk, LogSpans, MarksAll, NoLeak, Replays, ByteAt;
    forall a: nat
      ensures ByteAt(m'.bytes, index, a) == ByteAt(m.bytes, index, a)
    {
      OtherBytes(m, m', ino, other, log, index, a);
    }
    OtherBacks(m, m', ino, other, log);
    OtherNoLeak(m, m', ino, other, log);
    LogFrame(m, m', other, log, 0);
  }

  // ------------------------------------------------------------- every page, once

  /** A place a page can be: position `i` of page list `l`, page `k` of an inode's log,
      or position `i` in the chain of an entry. */
  datatype Where =
    | OnList(l: nat, i: nat)
    | LogPageOf(ino: nat, k: nat)
    | DataPageOf(ino: nat, k: nat, s: nat, i: nat)

  predicate IsAt(free: seq<seq<int>>, logs: seq<seq<LogPage>>, p: int, w: Where) {
    if w.OnList? then w.l < |free| && w.i < |free[w.l]| && free[w.l][w.i] == p
    else if w.LogPageOf? then w.ino < |logs| && w.k < |logs[w.ino]| && logs[w.ino][w.k].id == p
    else w.ino < |logs| && w.k < |logs[w.ino]| && w.s < |logs[w.ino][w.k].ents| && w.i < |logs[w.ino][w.k].ents[w.s].pages|
         && logs[w.ino][w.k].ents[w.s].pages[w.i] == p
  }

  ghost predicate AllStored(m: Mem, logs: seq<seq<LogPage>>) {
    && (forall i | 0 <= i < |logs| :: LogOk(m, i, logs[i], 0) && NoLeak(m.own, i, logs[i], {}))
    && (forall p | 0 <= p < |m.own| && m.own[p].Held? :: m.own[p].holder.ino < |logs|)
  }

  /** A place fixes the owner. */
  lemma PlaceOwner(s: Pool, m: Mem, free: seq<seq<int>>, logs: seq<seq<LogPage>>, p: int, w: Where)
    requires Inv(s, m.own, free, NonePushed()) && AllStored(m, logs) && IsAt(free, logs, p, w)
    ensures 0 <= p < |m.own|
    ensures m.own[p] == if w.OnList? then Free(w.l)
                        else if w.LogPageOf? then Held(Use(w.ino, LogRole))
                        else Held(Use(w.ino, DataRole(Pos(logs[w.ino][w.k].id, w.s))))
  {
    hide LogOk, NoLeak;
    if w.OnList? {
      ListPages(s, m.own, free, w.l);
    } else if w.LogPageOf? {
      LogIds(m, w.ino, logs[w.ino], 0);
    } else {
      EntryInLog(m, w.ino, logs[w.ino], 0, w.k, w.s);
      DataHeld(m, w.ino, logs[w.ino], w.k, w.s);
    }
  }

  /** A page is in at most one place. */
  lemma PlaceUnique(s: Pool, m: Mem, free: seq<seq<int>>, logs: seq<seq<LogPage>>, p: int, w: Where, w': Where)
    requires Inv(s, m.own, free, NonePushed()) && AllStored(m, logs) && IsAt(free, logs, p, w) && IsAt(free, logs, p, w')
    ensures w == w'
  {
    hide Inv, LogOk, NoLeak;
    PlaceOwner(s, m, free, logs, p, w);
    PlaceOwner(s, m, free, logs, p, w');
    if w.OnList? {
      ListNoDup(s, m.own, free, w.l);
    } else if w.LogPageOf? {
      LogIds(m, w.ino, logs[w.ino], 0);
    } else {
      PageUnique(m, w.ino, logs[w.ino], 0, w.k, w.s, w.i, w'.k, w'.s, w'.i);
    }
  }

  lemma ListNoDup(s: Pool, own: seq<Owner<Use>>, free: seq<seq<int>>, l: nat)
    requires Inv(s, own, free, NonePushed()) && l < |free|
    ensures NoDup(free[l])
  {
    assert ListOk(s, own, free[l], l);
    LinkedNoDup(s.next, free[l]);
  }

  /** A page is in at least one place. */
  lemma PlaceExists(s: Pool, m: Mem, free: seq<seq<int>>, logs: seq<seq<LogPage>>, p: int) returns (w: Where)
    requires Inv(s, m.own, free, NonePushed()) && AllStored(m, logs) && 0 <= p < |m.own|
    ensures IsAt(free, logs, p, w)
  {
    hide LogOk;
    if m.own[p].Free? {
      var l := m.own[p].list;
      assert ListOk(s, m.own, free[l], l);
      var i :| 0 <= i < |free[l]| && free[l][i] == p;
      w := OnList(l, i);
    } else {
      var ino, role := m.own[p].holder.ino, m.own[p].holder.role;
      assert Accounted(role, p, logs[ino], {});
      if role.LogRole? {
        var k :| 0 <= k < |Ids(logs[ino])| && Ids(logs[ino])[k] == p;
        w := LogPageOf(ino, k);
      } else {
        var k, t :| 0 <= k < |logs[ino]| && 0 <= t < |logs[ino][k].ents| && role.pos == Pos(logs[ino][k].id, t) && p in logs[ino][k].ents[t].pages;
        var i :| 0 <= i < |logs[ino][k].ents[t].pages| && logs[ino][k].ents[t].pages[i] == p;
        w := DataPageOf(ino, k, t, i);
      }
    }
  }

  /** Page conservation: the page lists, the log chains and the chains of the entries
      together hold every page exactly once. */
  lemma EveryPageOnce(s: Pool, m: Mem, free: seq<seq<int>>, logs: seq<seq<LogPage>>, p: int) returns (w: Where)
    requires Inv(s, m.own, free, NonePushed()) && AllStored(m, logs) && 0 <= p < |m.own|
    ensures IsAt(free, logs, p, w) && forall w' | IsAt(free, logs, p, w') :: w' == w
  {
    hide Inv, AllStored, IsAt;
    w := PlaceExists(s, m, free, logs, p);
    forall w' | IsAt(free, logs, p, w') ensures w' == w {
      PlaceUnique(s, m, free, logs, p, w, w');
    }
  }

  // ------------------------------------------------------------------ the system

  class FileSystem {
    const nvm: Nvm
    var inodes: seq<Inode>
    var order: seq<nat> // s_list

    ghost predicate InOrder()
      reads this, nvm, inodes
    {
      && nvm.Valid()
      && (forall i | 0 <= i < |inodes| :: inodes[i].ino == i && inodes[i].Ready(nvm))
      && (forall p | 0 <= p < |nvm.own| && nvm.own[p].Held? :: nvm.own[p].holder.ino < |inodes|)
    }

    ghost predicate Ok()
      reads this, nvm, inodes
    {
      InOrder() && Listed(View())
    }

    ghost function View(): Disk
      reads this, nvm, inodes
    {
      Disk(seq(|inodes|, i requires 0 <= i < |inodes| reads this, nvm, inodes => inodes[i].View(nvm)), order)
    }

    ghost function Logs(): seq<seq<LogPage>>
      reads this, inodes
    {
      seq(|inodes|, i requires 0 <= i < |inodes| reads this, inodes => inodes[i].log)
    }

    constructor (n: nat)
      requires 0 < n <= NUM_PAGES
      ensures Ok() && View() == Disk([], []) && fresh(nvm) && inodes == [] && nvm.Room() == n && (nvm.Short(1) <==> n < FILL_MAX)
    {
      hide Inv, MemOk, Inode.Ready, Inode.View;
      nvm := new Nvm(n);
      inodes, order := [], [];
    }

    /** Between two calls every page is in exactly one place. */
    lemma PagesOnce(p: int) returns (w: Where)
      requires Ok() && 0 <= p < |nvm.own|
      ensures IsAt(nvm.free, Logs(), p, w) && forall w' | IsAt(nvm.free, Logs(), p, w') :: w' == w
    {
      forall i | 0 <= i < |inodes|
        ensures LogOk(nvm.M(), i, Logs()[i], 0) && NoLeak(nvm.own, i, Logs()[i], {})
      {
        assert inodes[i].Ready(nvm);
      }
      w := EveryPageOnce(nvm.Lists(), nvm.M(), nvm.free, Logs(), p);
    }

    /** The inodes a call does not concern. */
    twostate lemma OthersReady(i: nat)
      requires old(InOrder()) && inodes == old(inodes) && nvm.Valid() && OthersKept(old(nvm.M()), nvm.M(), i)
      requires forall j | 0 <= j < |inodes| && j != i :: unchanged(inodes[j])
      ensures forall j | 0 <= j < |inodes| && j != i :: inodes[j].Ready(nvm) && inodes[j].View(nvm) == old(inodes[j].View(nvm))
      ensures forall p | 0 <= p < |nvm.own| && nvm.own[p].Held? && nvm.own[p].holder.ino != i :: nvm.own[p].holder.ino < |inodes|
      ensures |nvm.own| == old(|nvm.own|)
    {
      hide Inv, MemOk, Stored, OthersKept, SizeOk, EndPos, ZeroTail, FileBytes, LogSpans;
      forall j | 0 <= j < |inodes| && j != i
        ensures inodes[j].Ready(nvm) && inodes[j].View(nvm) == old(inodes[j].View(nvm))
      {
        assert old(inodes[j].Ready(nvm));
        OtherStays(old(nvm.M()), nvm.M(), i, j, inodes[j].log, inodes[j].index, inodes[j].iSize);
      }
      HoldersKept(old(nvm.M()), nvm.M(), i, |inodes|);
    }

    /** `atfscreat` once the inode is given: `init_atfs_inode` and `list_add`. */
    method Create() returns (ok: bool)
      requires Ok()
      modifies this, nvm
      ensures if ok then Ok() && View() == old(Step(View(), Call.Create)) else nvm.Short(1)
      ensures ok ==> |inodes| > 0 && inodes[..|inodes| - 1] == old(inodes) && fresh(inodes[|inodes| - 1])
      ensures !ok ==> inodes == old(inodes) && old(nvm.Short(1))
      ensures nvm.Room() + FILL_MAX >= old(nvm.Room())
      ensures ok ==> LogsStep(old(View()), Call.Create, old(Logs()), Logs())
    {
      hide Inv, MemOk, OthersKept, HeldKept, Inode.Ready, Inode.View, Entries, Nvm.Short, Logs;
      ghost var m, d := nvm.M(), View();
      var i := |inodes|;
      var inode := new Inode(i);
      HoldersBelow();
      var cpu := nvm.GetCpuId();
      ok := inode.InitInode(nvm, Repaired, cpu);
      if !ok {
        return;
      }
      HeldKeptOthers(m, nvm.M(), i);
      OthersReady(i);
      inodes := inodes + [inode];
      order := [i] + order;
      FilesAdded(inode);
      StepListed(d, Call.Create);
    }

    twostate lemma FilesAdded(new inode: Inode)
      requires inodes == old(inodes) + [inode]
      requires forall j | 0 <= j < |old(inodes)| ::
                 inodes[j].View(nvm) == old(inodes[j].View(nvm)) && inodes[j].log == old(inodes[j].log)
      ensures View().files == old(View().files) + [inode.View(nvm)] && Logs() == old(Logs()) + [inode.log]
    {
      hide Inode.View;
    }

    lemma HoldersBelow()
      requires InOrder()
      ensures nvm.Valid()
      ensures forall p | 0 <= p < |nvm.own| && nvm.own[p].Held? :: nvm.own[p].holder.ino != |inodes|
    {
    }

    /** A call on one inode, with the move to the front of the list. */
    method CallOn(b: Build, i: nat, op: Op) returns (ok: bool, r: Reply)
      requires Ok() && Covered(b, View(), On(i, op))
      modifies this`order, nvm, inodes
      ensures if ok then Ok() && View() == old(Step(View(), On(i, op))) && [r] == old(Answer(View(), On(i, op))) else nvm.Short(MAX_PAGES)
      ensures var cost := old(Cost(View().files[i], op)); nvm.Room() + cost >= old(nvm.Room()) && (old(nvm.Room()) >= cost ==> ok)
      ensures LogsStep(old(View()), On(i, op), old(Logs()), Logs())
    {
      hide InOrder, Admits, After, ReplyOf, Cost, Listed, IndexOf, ToFront;
      ghost var d := View();
      if !op.Seek? {
        order := ToFront(order, IndexOf(order, i));
      }
      OrderOnly();
      ok, r := OnInode(b, i, op);
      StepListed(d, On(i, op));
    }

    twostate lemma OrderOnly()
      requires old(InOrder()) && inodes == old(inodes) && unchanged(nvm) && forall i | 0 <= i < |inodes| :: unchanged(inodes[i])
      ensures InOrder() && View().files == old(View().files)
    {
      hide Inv, MemOk, Stored, SizeOk, EndPos, ZeroTail, FileBytes;
    }

    method OnInode(b: Build, i: nat, op: Op) returns (ok: bool, r: Reply)
      requires InOrder() && i < |inodes| && Admits(b, View().files[i], op)
      modifies nvm, inodes
      ensures if ok then InOrder() && View().files == old(View().files[i := After(View().files[i], op)]) else nvm.Short(MAX_PAGES)
      ensures var cost := old(Cost(View().files[i], op)); nvm.Room() + cost >= old(nvm.Room()) && (old(nvm.Room()) >= cost ==> ok)
      ensures r == old(ReplyOf(View().files[i], op))
      ensures LogsStep(old(View()), On(i, op), old(Logs()), Logs())
    {
      hide Inv, MemOk, OthersKept, Inode.Ready, Inode.View, Admits, After, ReplyOf, Cost;
      ok, r := inodes[i].Perform(nvm, b, op);
      OthersReady(i);
    }

    /** `start_gc_task`: take the least recently used inode, move it to the front and
        collect it. */
    method Collect() returns (ok: bool)
      requires Ok()
      modifies this`order, nvm, inodes
      ensures if ok then Ok() && View() == old(Step(View(), Collection)) else nvm.Short(1)
      ensures var cost := old(CallCost(View(), Collection)); nvm.Room() + cost >= old(nvm.Room()) && (old(nvm.Room()) >= cost ==> ok)
      ensures ok ==> LogsStep(old(View()), Collection, old(Logs()), Logs())
      ensures |nvm.own| == old(|nvm.own|) && inodes == old(inodes)
    {
      hide Inv, MemOk, OthersKept, Inode.Ready, Inode.View, Listed, Compacted;
      if order == [] {
        return true;
      }
      ghost var d := View();
      var i := order[|order| - 1];
      ListedIs(d, i);
      ok := inodes[i].Collect(nvm);
      OthersReady(i);
      order := ToFront(order, |order| - 1);
      if ok {
        assert View().files == d.files;
        StepListed(d, Collection);
      }
    }

    method Do(b: Build, c: Call) returns (ok: bool, r: seq<Reply>)
      requires Ok() && Covered(b, View(), c)
      modifies this, nvm, inodes
      ensures if ok then Ok() && View() == old(Step(View(), c)) && r == old(Answer(View(), c)) else nvm.Short(MAX_PAGES)
      ensures forall i | 0 <= i < |inodes| :: inodes[i] in old(inodes) || fresh(inodes[i])
      ensures var cost := old(CallCost(View(), c)); nvm.Room() + cost >= old(nvm.Room()) && (old(nvm.Room()) >= cost ==> ok)
      ensures ok ==> LogsStep(old(View()), c, old(Logs()), Logs())
    {
      hide Ok, View, Step, ReplyOf, Cost, LogsStep;
      match c
      case Create =>
        ok := Create();
        r := [Number(0)];
      case On(i, op) =>
        var reply;
        ok, reply := CallOn(b, i, op);
        r := [reply];
      case Collection =>
        ok := Collect();
        r := [];
    }

    /** Any run: the region does to the files what the flat specification says, and
        gives its answers, and they are what the run without its collections would give;
        it completes whenever the global list holds `RunCost` pages.  `b` is the
        build of the writes: as written each of them has to be cautious where it comes. */
    method Run(b: Build, cs: seq<Call>) returns (ok: bool, answers: seq<Reply>, ghost trace: seq<seq<seq<LogPage>>>)
      requires Ok() && Play(b, View(), cs).Some?
      modifies this, nvm, inodes
      ensures if ok then Ok() && Some(Outcome(View(), answers)) == old(Play(b, View(), cs)) else nvm.Short(MAX_PAGES)
      ensures old(nvm.Room()) >= old(RunCost(b, View(), cs)) ==> ok
      ensures ok ==> var u := old(Play(b, View(), Uncollected(cs))); u.Some? && View().files == u.value.disk.files && answers == u.value.answers
      ensures ok ==> Traced(b, old(View()), cs, trace) && trace[0] == old(Logs()) && trace[|cs|] == Logs()
    {
      hide Ok, View, Step, Answer, Covered, Listed, CallCost, RunCost, Traced, LogsStep;
      ghost var d := View();
      OkListed();
      CollectionsInvisible(b, d, cs);
      answers := [];
      ok := true;
      var n := 0;
      assert cs[..0] == [];
      NoRunCost(b, d);
      trace := [Logs()];
      assert Traced(b, d, [], trace) by { NothingTraced(b, d, trace); }
      while n < |cs|
        invariant 0 <= n <= |cs| && Ok() && Play(b, d, cs[..n]) == Some(Outcome(View(), answers))
        invariant forall i | 0 <= i < |inodes| :: inodes[i] in old(inodes) || fresh(inodes[i])
        invariant nvm.Room() + RunCost(b, d, cs[..n]) >= old(nvm.Room())
        invariant |trace| == n + 1 && Traced(b, d, cs[..n], trace) && trace[0] == old(Logs()) && trace[n] == Logs()
      {
        PlayPrefix(b, d, cs, n);
        CostPrefix(b, d, cs, n);
        var r;
        ok, r := Do(b, cs[n]);
        if !ok {
          return;
        }
        answers := answers + r;
        TraceMore(b, d, cs[..n], trace, cs[n], Logs());
        trace := trace + [Logs()];
        assert cs[..n] + [cs[n]] == cs[..n + 1];
        n := n + 1;
      }
      assert cs[..n] == cs;
    }

    lemma OkListed()
      requires Ok()
      ensures Listed(View())
    {
    }
  }

  lemma NothingTraced(b: Build, d: Disk, trace: seq<seq<seq<LogPage>>>)
    requires |trace| == 1
    ensures Traced(b, d, [], trace)
  {
  }

  lemma ListedIs(d: Disk, i: nat)
    requires Listed(d) && i in d.order
    ensures i < |d.files|
  {
  }

  lemma HoldersKept(m: Mem, m': Mem, i: nat, n: nat)
    requires OthersKept(m, m', i)
    requires forall p | 0 <= p < |m.own| && m.own[p].Held? :: m.own[p].holder.ino < n
    ensures forall p | 0 <= p < |m'.own| && m'.own[p].Held? && m'.own[p].holder.ino != i :: m'.own[p].holder.ino < n
    ensures |m'.own| == |m.own|
  {
  }
}
