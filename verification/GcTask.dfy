/** `start_gc_task` (src/gc.c:150-172): the walk over the log, and one page collected on
    the way. */
module GcTask {
  import opened Chains
  import opened PageLists
  import opened Layout
  import opened LogModel
  import opened Region
  import opened LogStore
  import opened LogMeaning
  import opened WriteSteps
  import opened GcSteps

  /** More than half of the entries of this page, or more than half of its data pages, are
      overwritten: the collector takes it. */
  ghost predicate Picked(pg: LogPage) {
    2 * |DeadEntries(pg.ents)| > |pg.ents| || 2 * |DeadPages(pg.ents)| > |DataPages(pg.ents)|
  }

  /** Of 85 entries of one page each, the collector wants 43 overwritten. */
  lemma OnePageEntries(pg: LogPage)
    requires |pg.ents| == 85 && DeadInRange(pg.ents) && forall s | 0 <= s < 85 :: |pg.ents[s].pages| == 1
    ensures Collectable(CountersOf(pg.ents)) <==> |DeadEntries(pg.ents)| >= 43
  {
    CountersMean(pg.ents);
    CountersOfSingles(pg.ents);
  }

  lemma {:induction false} CountersOfSingles(ents: seq<Ent>)
    requires DeadInRange(ents) && forall s | 0 <= s < |ents| :: |ents[s].pages| == 1
    ensures CountersOf(ents).pagesCnt == |ents| && CountersOf(ents).invalidPages == CountersOf(ents).invalidCnt
  {
    if ents != [] {
      DeadSize(ents[|ents| - 1]);
      CountersOfSingles(ents[..|ents| - 1]);
    }
  }

  /** Of 85 entries of two pages each, one page of each overwritten, it wants one more. */
  lemma TwoPageEntries(pg: LogPage)
    requires |pg.ents| == 85 && DeadInRange(pg.ents) && forall s | 0 <= s < 85 :: |pg.ents[s].pages| == 2 && pg.ents[s].dead != {}
    ensures Collectable(CountersOf(pg.ents)) <==> exists s :: 0 <= s < 85 && pg.ents[s].dead == {0, 1}
  {
    CountersMean(pg.ents);
    CountersOfPairs(pg.ents);
    var d := DeadEntries(pg.ents);
    forall s: nat | s < 85
      ensures s in d <==> pg.ents[s].dead == {0, 1}
    {
      DeadSize(pg.ents[s]);
    }
    if d != {} {
      var s :| s in d;
      assert pg.ents[s].dead == {0, 1};
    }
  }

  lemma {:induction false} CountersOfPairs(ents: seq<Ent>)
    requires DeadInRange(ents) && forall s | 0 <= s < |ents| :: |ents[s].pages| == 2 && ents[s].dead != {}
    ensures CountersOf(ents).pagesCnt == 2 * |ents| && CountersOf(ents).invalidPages == |ents| + CountersOf(ents).invalidCnt
  {
    if ents != [] {
      DeadSize(ents[|ents| - 1]);
      CountersOfPairs(ents[..|ents| - 1]);
    }
  }

  /** The pages it leaves in the log, in order. */
  ghost function Survivors(log: seq<LogPage>): seq<LogPage> {
    if log == [] then []
    else
      var last := log[|log| - 1];
      Survivors(log[..|log| - 1]) + if Picked(last) then [] else [last]
  }

  /** The entries it appends for the others. */
  ghost function Moved(log: seq<LogPage>, size: nat): seq<Ent> {
    if log == [] then []
    else
      var last := log[|log| - 1];
      Moved(log[..|log| - 1], size) + if Picked(last) then BlockRuns(last.ents, size) else []
  }

  ghost function Ahead(log0: seq<LogPage>, v: nat): seq<LogPage>
    requires v <= |log0|
  {
    Survivors(log0[..v]) + log0[v..]
  }

  /** The walk over `log0` has come to page `v`; the log is now `log`. */
  ghost predicate TaskAt(log0: seq<LogPage>, log: seq<LogPage>, v: nat, size: nat) {
    && v < |log0| && Extends(Ahead(log0, v), log)
    && Entries(log) == Entries(Ahead(log0, v)) + Moved(log0[..v], size)
  }

  ghost function Place(log0: seq<LogPage>, v: nat): nat
    requires v <= |log0|
  {
    |Survivors(log0[..v])|
  }

  /** Page `u` is the last one the walk over the first `n` pages has taken. */
  ghost predicate LastPicked(log0: seq<LogPage>, u: nat, n: nat) {
    u < n <= |log0| && Picked(log0[u]) && forall w | u < w < n :: !Picked(log0[w])
  }

  /** That page is on a free list. */
  ghost predicate LastFreed(m: Mem, free: seq<seq<int>>, log0: seq<LogPage>, n: nat) {
    forall u | 0 <= u < |log0| && LastPicked(log0, u, n) :: FreedPage(m, free, log0[u])
  }

  lemma NoneFreed(m: Mem, free: seq<seq<int>>, log0: seq<LogPage>)
    ensures LastFreed(m, free, log0, 0)
  {
  }

  lemma FreedKeep(m: Mem, free: seq<seq<int>>, log0: seq<LogPage>, v: nat)
    requires v < |log0| && !Picked(log0[v]) && LastFreed(m, free, log0, v)
    ensures LastFreed(m, free, log0, v + 1)
  {
    hide Picked, FreedPage;
    forall u | 0 <= u < |log0| && LastPicked(log0, u, v + 1)
      ensures LastPicked(log0, u, v)
    {
    }
  }

  lemma FreedCollect(m: Mem, free: seq<seq<int>>, log0: seq<LogPage>, v: nat)
    requires v < |log0| && Picked(log0[v]) && FreedPage(m, free, log0[v])
    ensures LastFreed(m, free, log0, v + 1)
  {
    hide Picked, FreedPage;
  }

  lemma TaskStart(log: seq<LogPage>, size: nat)
    requires log != []
    ensures TaskAt(log, log, 0, size) && Place(log, 0) == 0
  {
    assert Ahead(log, 0) == log;
    assert Entries(log) + [] == Entries(log);
  }

  lemma TaskPage(log0: seq<LogPage>, log: seq<LogPage>, v: nat, size: nat)
    requires TaskAt(log0, log, v, size)
    ensures log != [] && Place(log0, v) < |log| && log[Place(log0, v)].id == log0[v].id
    ensures v < |log0| - 1 ==>
              var k := Place(log0, v); k < |log| - 1 && log[k] == log0[v] && log[k + 1].id == log0[v + 1].id
  {
    hide Entries, Survivors;
    var base, k := Ahead(log0, v), Place(log0, v);
    assert base[k] == log0[v];
    if v < |log0| - 1 {
      assert base[k + 1] == log0[v + 1];
      assert log[..|base| - 1][k] == base[..|base| - 1][k];
      if k + 1 < |base| - 1 {
        assert log[..|base| - 1][k + 1] == base[..|base| - 1][k + 1];
      }
    }
  }

  /** The walk moves nothing exactly if the header of every page it takes counts all
      data pages of that page as overwritten. */
  lemma {:induction false} NothingMovedIff(log: seq<LogPage>, size: nat)
    requires forall k | 0 <= k < |log| :: DeadInRange(log[k].ents)
    ensures Moved(log, size) == [] <==>
            forall k | 0 <= k < |log| && Picked(log[k]) :: CountersOf(log[k].ents).invalidPages == CountersOf(log[k].ents).pagesCnt
  {
    hide Picked, DeadInRange;
    if log != [] {
      var n := |log| - 1;
      NothingMovedIff(log[..n], size);
      NothingMoves(log[n].ents, size);
      assert forall k | 0 <= k < n :: log[..n][k] == log[k];
    }
  }

  lemma SurvivorsNext(log0: seq<LogPage>, v: nat, size: nat)
    requires v < |log0|
    ensures Survivors(log0[..v + 1]) == Survivors(log0[..v]) + if Picked(log0[v]) then [] else [log0[v]]
    ensures Moved(log0[..v + 1], size) == Moved(log0[..v], size) + if Picked(log0[v]) then BlockRuns(log0[v].ents, size) else []
    ensures Picked(log0[v]) ==> Place(log0, v) < |Ahead(log0, v)| && Ahead(log0, v + 1) == Drop(Ahead(log0, v), Place(log0, v))
    ensures !Picked(log0[v]) ==> Ahead(log0, v + 1) == Ahead(log0, v) && Place(log0, v + 1) == Place(log0, v) + 1
  {
    hide Picked, BlockRuns;
    assert log0[..v + 1][..v] == log0[..v];
    AheadNext(log0, v);
  }

  lemma AheadNext(log0: seq<LogPage>, v: nat)
    requires v < |log0|
    requires Survivors(log0[..v + 1]) == Survivors(log0[..v]) + if Picked(log0[v]) then [] else [log0[v]]
    ensures Picked(log0[v]) ==> Place(log0, v) < |Ahead(log0, v)| && Ahead(log0, v + 1) == Drop(Ahead(log0, v), Place(log0, v))
    ensures !Picked(log0[v]) ==> Ahead(log0, v + 1) == Ahead(log0, v) && Place(log0, v + 1) == Place(log0, v) + 1
  {
    hide Picked, Survivors;
    assert log0[v..] == [log0[v]] + log0[v + 1..];
    var s := Survivors(log0[..v]);
    assert s + [log0[v]] + log0[v + 1..] == s + ([log0[v]] + log0[v + 1..]);
  }

  /** The page stays. */
  lemma TaskKeep(log0: seq<LogPage>, log: seq<LogPage>, v: nat, size: nat)
    requires TaskAt(log0, log, v, size) && v < |log0| - 1 && !Picked(log0[v])
    ensures TaskAt(log0, log, v + 1, size) && Place(log0, v + 1) == Place(log0, v) + 1
  {
    hide Entries, Survivors, Picked, Extends, Ahead, Place;
    SurvivorsNext(log0, v, size);
    assert Moved(log0[..v], size) + [] == Moved(log0[..v], size);
  }

  lemma EntriesNext(log: seq<LogPage>, k: nat)
    requires k < |log|
    ensures Entries(log[..k + 1]) == Entries(log[..k]) + log[k].ents
  {
    assert log[..k + 1][..k] == log[..k];
  }

  lemma DropEntries(log: seq<LogPage>, k: nat)
    requires k < |log|
    ensures Entries(log) == Entries(log[..k]) + log[k].ents + Entries(log[k + 1..])
    ensures Entries(Drop(log, k)) == Entries(log[..k]) + Entries(log[k + 1..])
  {
    hide Entries;
    EntriesConcat(log[..k], log[k + 1..]);
    assert log == log[..k + 1] + log[k + 1..];
    EntriesConcat(log[..k + 1], log[k + 1..]);
    EntriesNext(log, k);
  }

  lemma DropSpans(log: seq<LogPage>, k: nat)
    requires k < |log|
    ensures LogSpans(log) == LogSpans(log[..k]) + EntSpans(log[k].ents) + LogSpans(log[k + 1..])
    ensures LogSpans(Drop(log, k)) == LogSpans(log[..k]) + LogSpans(log[k + 1..])
  {
    hide LogSpans, Entries, Drop, EntSpans;
    var a, b, c := Entries(log[..k]), log[k].ents, Entries(log[k + 1..]);
    DropEntries(log, k);
    EntriesSpans(log);
    EntriesSpans(Drop(log, k));
    EntriesSpans(log[..k]);
    EntriesSpans(log[k + 1..]);
    EntSpansConcat(a + b, c);
    EntSpansConcat(a, b);
    EntSpansConcat(a, c);
  }

  lemma DropExtends(base: seq<LogPage>, log: seq<LogPage>, k: nat)
    requires Extends(base, log) && k < |base| - 1
    ensures Extends(Drop(base, k), Drop(log, k))
    ensures log[..k] == base[..k] && log[k] == base[k]
  {
    var b', l' := Drop(base, k), Drop(log, k);
    var n := |base| - 1;
    assert forall i | 0 <= i < n :: log[i] == log[..n][i] == base[..n][i] == base[i];
    assert l'[..n - 1] == b'[..n - 1];
    assert l'[n - 1] == log[n] && b'[n - 1] == base[n];
  }

  lemma ExtendsTrans(a: seq<LogPage>, b: seq<LogPage>, c: seq<LogPage>)
    requires Extends(a, b) && Extends(b, c)
    ensures Extends(a, c)
  {
    var n := |a| - 1;
    assert c[..n] == c[..|b| - 1][..n];
    if |a| < |b| {
      assert c[n] == c[..|b| - 1][n] == b[..|b| - 1][n];
    }
  }

  lemma Cancel<T>(a: seq<T>, b: seq<T>, c: seq<T>, c0: seq<T>, moved: seq<T>)
    requires a + b + c == a + b + c0 + moved
    ensures a + c == a + c0 + moved
  {
    var n := |a + b|;
    assert c == (a + b + c)[n..];
    assert c0 + moved == (a + b + c0 + moved)[n..];
  }

  /** The page is collected, after which the log is `log'`. */
  lemma TaskCollect(log0: seq<LogPage>, log: seq<LogPage>, log': seq<LogPage>, v: nat, size: nat)
    requires TaskAt(log0, log, v, size) && v < |log0| - 1 && Picked(log0[v])
    requires Place(log0, v) < |log| && Extends(Drop(log, Place(log0, v)), log')
    requires Entries(log') == Entries(Drop(log, Place(log0, v))) + BlockRuns(log0[v].ents, size)
    ensures TaskAt(log0, log', v + 1, size) && Place(log0, v + 1) == Place(log0, v)
  {
    hide Entries, Survivors, Picked, Extends, BlockRuns, Drop, Moved;
    var base, k := Ahead(log0, v), Place(log0, v);
    SurvivorsNext(log0, v, size);
    DropExtends(base, log, k);
    ExtendsTrans(Drop(base, k), Drop(log, k), log');
    DropEntries(log, k);
    DropEntries(base, k);
    Cancel(Entries(log[..k]), log[k].ents, Entries(log[k + 1..]), Entries(base[k + 1..]), Moved(log0[..v], size));
    var a, c, x := Moved(log0[..v], size), BlockRuns(log0[v].ents, size), Entries(Drop(base, k));
    assert x + a + c == x + (a + c);
  }

  /** What the whole walk does: the pages not picked stay, in order, the tail page
      stays whatever its counters say, and the live runs of the picked ones follow. */
  ghost predicate Compacted(log0: seq<LogPage>, log: seq<LogPage>, size: nat) {
    log0 != [] &&
    var n := |log0| - 1;
    && Extends(Survivors(log0[..n]) + [log0[n]], log)
    && Entries(log) == Entries(Survivors(log0[..n]) + [log0[n]]) + Moved(log0[..n], size)
  }

  /** A page before the tail page leaves the log if and only if more than half of its
      entries or more than half of its data pages are overwritten; the others are the
      front of the new log, followed by the old tail page. */
  lemma LeavesIff(log0: seq<LogPage>, log: seq<LogPage>, size: nat) returns (kept: nat)
    requires Compacted(log0, log, size)
    ensures kept < |log| && log[kept].id == log0[|log0| - 1].id
    ensures forall pg :: pg in log[..kept] <==>
              pg in log0[..|log0| - 1] && 2 * |DeadEntries(pg.ents)| <= |pg.ents| && 2 * |DeadPages(pg.ents)| <= |DataPages(pg.ents)|
  {
    hide Entries;
    var front := log0[..|log0| - 1];
    kept := |Survivors(front)|;
    assert log[..kept] == (Survivors(front) + [log0[|log0| - 1]])[..kept] == Survivors(front);
    forall pg: LogPage
      ensures pg in Survivors(front) <==> pg in front && !Picked(pg)
    {
      SurvivorsIff(front, pg);
    }
  }

  lemma {:induction false} SurvivorsIff(log: seq<LogPage>, pg: LogPage)
    ensures pg in Survivors(log) <==> pg in log && !Picked(pg)
  {
    hide Picked;
    if log != [] {
      var n := |log| - 1;
      SurvivorsIff(log[..n], pg);
      assert log == log[..n] + [log[n]];
    }
  }

  lemma TaskEnd(log0: seq<LogPage>, log: seq<LogPage>, size: nat)
    requires log0 != [] && TaskAt(log0, log, |log0| - 1, size)
    ensures Compacted(log0, log, size)
  {
    assert log0[|log0| - 1..] == [log0[|log0| - 1]];
  }

  // ------------------------------------------------------------ one page of the walk

  lemma MovedGrows(log0: seq<LogPage>, v: nat, size: nat)
    requires v < |log0| - 1
    ensures |Moved(log0[..v + 1], size)| == |Moved(log0[..v], size)| + if Picked(log0[v]) then |BlockRuns(log0[v].ents, size)| else 0
    ensures |Moved(log0[..v + 1], size)| <= |Moved(log0[..|log0| - 1], size)|
  {
    hide Picked, BlockRuns, Moved, Survivors, Ahead, Drop;
    SurvivorsNext(log0, v, size);
    MovedMono(log0, v + 1, |log0| - 1, size);
  }

  lemma {:induction false} MovedMono(log0: seq<LogPage>, v: nat, w: nat, size: nat)
    requires v <= w <= |log0|
    ensures |Moved(log0[..v], size)| <= |Moved(log0[..w], size)|
  {
    hide Moved, Picked, BlockRuns;
    if v < w {
      SurvivorsNext(log0, w - 1, size);
      MovedMono(log0, v, w - 1, size);
    }
  }

  lemma MovedNext(log0: seq<LogPage>, v: nat, size: nat)
    requires v < |log0|
    ensures Moved(log0[..v + 1], size) == [] <==>
            Moved(log0[..v], size) == [] && (Picked(log0[v]) ==> BlockRuns(log0[v].ents, size) == [])
  {
    SurvivorsNext(log0, v, size);
  }

  lemma {:induction false} InPagesOf(ents: seq<Ent>, s: nat, p: int)
    requires s < |ents| && p in ents[s].pages
    ensures p in PagesOf(ents)
  {
    if s > 0 {
      InPagesOf(ents[1..], s - 1, p);
    }
  }

  lemma DropInEntry(log: seq<LogPage>, k: nat, p: int, pos: Pos)
    requires k < |log| && InEntry(log, p, pos)
    ensures pos.page == log[k].id && (forall j | 0 <= j < |log| && j != k :: log[j].id != log[k].id) ==> p in PagesOf(log[k].ents)
    ensures pos.page != log[k].id ==> InEntry(Drop(log, k), p, pos)
  {
    var j, s :| 0 <= j < |log| && 0 <= s < |log[j].ents| && pos == Pos(log[j].id, s) && p in log[j].ents[s].pages;
    if j == k {
      InPagesOf(log[k].ents, s, p);
    } else {
      var x := if j < k then j else j - 1;
      assert Drop(log, k)[x] == log[j];
    }
  }

  lemma DropId(log: seq<LogPage>, k: nat, p: int)
    requires k < |log| && p in Ids(log) && p != log[k].id
    ensures p in Ids(Drop(log, k))
  {
    var j :| 0 <= j < |log| && Ids(log)[j] == p;
    var x := if j < k then j else j - 1;
    assert Ids(Drop(log, k))[x] == p;
  }

  /** Unlinked, the page's data pages are the collection's to account for. */
  lemma RetireNoLeak(m: Mem, ino: nat, log: seq<LogPage>, k: nat)
    requires LogOk(m, ino, log, 0) && k < |log| && NoLeak(m.own, ino, log, {})
    ensures NoLeak(Retire(m.own, ino, log[k].id), ino, Drop(log, k), Extra(log[k], 0, [], []))
  {
    hide LogOk, InEntry, Ids, Drop, PagesOf;
    LogIds(m, ino, log, 0);
    var own', blk := Retire(m.own, ino, log[k].id), log[k];
    assert blk.ents[0..] == blk.ents;
    forall p | 0 <= p < |own'| && own'[p].Held? && own'[p].holder.ino == ino
      ensures Accounted(own'[p].holder.role, p, Drop(log, k), Extra(blk, 0, [], []))
    {
      assert own'[p] == RetireOne(m.own[p], p, ino, blk.id);
      assert p == blk.id || Accounted(m.own[p].holder.role, p, log, {});
      if p != blk.id {
        if m.own[p].holder.role.LogRole? {
          DropId(log, k, p);
        } else {
          DropInEntry(log, k, p, m.own[p].holder.role.pos);
        }
      }
    }
  }

  lemma DropMeans(index: map<nat, int>, log: seq<LogPage>, k: nat, size: nat)
    requires k < |log| - 1 && MarksAll(log, index, {}) && SizeOk(log, size)
    ensures Drop(log, k) != [] && MarksAll(Drop(log, k), index, {}) && SizeOk(Drop(log, k), size)
    ensures EndPos(Drop(log, k)) == EndPos(log)
    ensures forall s | 0 <= s < |log[k].ents| :: MarksOk(log[k].ents[s], index, {})
  {
    hide MarksOk;
    var log' := Drop(log, k);
    assert forall j | 0 <= j < |log'| :: log'[j] == log[if j < k then j else j + 1];
  }

  lemma DropBacks(back: seq<Pos>, log: seq<LogPage>, k: nat)
    requires k < |log|
    requires forall s | 0 <= s < |log[k].ents| :: BackOk(back, Pos(log[k].id, s), log[k].ents[s])
    ensures BacksOk(back, Drop(log, k)) <==> BacksOk(back, log)
  {
    hide BackOk;
    var log' := Drop(log, k);
    assert |log'| == |log| - 1;
    if BacksOk(back, log') {
      forall j, s | 0 <= j < |log| && 0 <= s < |log[j].ents|
        ensures BackOk(back, Pos(log[j].id, s), log[j].ents[s])
      {
        if j != k {
          var x := if j < k then j else j - 1;
          assert log'[x] == log[j];
        }
      }
    }
    if BacksOk(back, log) {
      forall j, s | 0 <= j < |log'| && 0 <= s < |log'[j].ents|
        ensures BackOk(back, Pos(log'[j].id, s), log'[j].ents[s])
      {
        var x := if j < k then j else j + 1;
        assert log'[j] == log[x];
      }
    }
  }

  /** From the unlinking to the collection. */
  lemma CollectStart(b: Build, m: Mem, m': Mem, ino: nat, log: seq<LogPage>, index: map<nat, int>, k: nat, size: nat)
    requires StoredLog(m, ino, log, index) && SizeOk(log, size) && k < |log| - 1 && Collectable(CountersOf(log[k].ents)) && MemOk(m')
    requires b == Repaired ==> BacksOk(m.back, log)
    requires forall s | 0 <= s < |log[k].ents| :: BackOk(m.back, Pos(log[k].id, s), log[k].ents[s])
    requires forall i | 0 <= i < |log| :: 0 <= log[i].id < |m.next|
    requires m' == m.(next := UnlinkAt(m.next, Ids(log), k), own := Retire(m.own, ino, log[k].id))
    ensures Drop(log, k) != [] && EndPos(Drop(log, k)) == EndPos(log)
    ensures GcBetween(m', ino, Drop(log, k), log[k], 0, [])
    ensures GcMeans(b, m'.back, index, Drop(log, k), Drop(log, k), [], size)
    ensures BacksOk(m.back, Drop(log, k)) <==> BacksOk(m.back, log)
    ensures Collected(m'.hdr, m'.back, index, log[k])
  {
    hide LogOk, BacksOk, MarksAll, NoLeak, SizeOk, Drop, EndPos, UnlinkAt, GcMeans, EntAs, Extra, MarksOk, BackOk, LogSpans, Entries;
    DropMeans(index, log, k, size);
    DropBacks(m.back, log, k);
    Unlink(m, m', ino, log, k);
    RetireNoLeak(m, ino, log, k);
    StoredMem(m, ino, log, index);
    assert 0 <= log[k].id < |m'.own|;
    CollectedCounters(log[k].ents);
    BlockStart(m', ino, Drop(log, k), log[k]);
    GcMeansStart(b, m'.back, index, Drop(log, k), size);
  }

  lemma BlockStart(m: Mem, ino: nat, log: seq<LogPage>, blk: LogPage)
    requires MemOk(m) && log != [] && LogOk(m, ino, log, 0) && NoLeak(m.own, ino, log, Extra(blk, 0, [], []))
    requires 0 <= blk.id < |m.own| && |blk.ents| == SLOTS && m.own[blk.id] == Held(Use(ino, Loose)) && m.next[blk.id] == NIL
    requires m.hdr[blk.id] == CountersOf(blk.ents)
    requires forall s | 0 <= s < SLOTS :: EntAs(m, ino, Pending(Pos(blk.id, s)), m.slot[blk.id][s], blk.ents[s])
    ensures GcBetween(m, ino, log, blk, 0, [])
  {
  }

  lemma CollectedCounters(ents: seq<Ent>)
    ensures |ents| == SLOTS ==> CountersOf(ents).(objCnt := SLOTS) == CountersOf(ents)
  {
    CountersCount(ents);
  }

  /** Unlinking does nothing to pages of other inodes. */
  lemma UnlinkOthers(m: Mem, m': Mem, ino: nat, log: seq<LogPage>, k: nat)
    requires LogOk(m, ino, log, 0) && k < |log| && MemOk(m')
    requires forall i | 0 <= i < |log| :: 0 <= log[i].id < |m.next|
    requires m' == m.(next := UnlinkAt(m.next, Ids(log), k), own := Retire(m.own, ino, log[k].id))
    ensures OthersKept(m, m', ino)
  {
    hide PageOk, UnlinkAt, Linked;
    LogIds(m, ino, log, 0);
    UnlinkTouches(m, ino, log, k);
  }

  /** After the collection the inode is stored again, with the same index. */
  lemma CollectEnd(b: Build, m: Mem, m': Mem, ino: nat, log: seq<LogPage>, log': seq<LogPage>, index: map<nat, int>, k: nat, size: nat)
    requires StoredLog(m, ino, log, index) && k < |log| - 1
    requires log' != [] && LogOk(m', ino, log', 0) && NoLeak(m'.own, ino, log', {})
    requires GcMeans(b, m'.back, index, Drop(log, k), log', BlockRuns(log[k].ents, size), size)
    ensures StoredLog(m', ino, log', index) && SizeOk(log', size) && (b == Repaired ==> BacksOk(m'.back, log'))
    ensures b.AsWritten? ==> (BacksOk(m'.back, log') <==> BacksOk(m'.back, Drop(log, k)) && BlockRuns(log[k].ents, size) == [])
    ensures Extends(Drop(log, k), log') && Entries(log') == Entries(Drop(log, k)) + BlockRuns(log[k].ents, size)
  {
    hide LogOk, BacksOk, NoLeak, SizeOk, Drop, MarksOk, LogSpans, Entries, BlockRuns, Extends, Replays;
    DropSpans(log, k);
    EntriesSpans(log');
    EntriesSpans(Drop(log, k));
    EntSpansConcat(Entries(Drop(log, k)), BlockRuns(log[k].ents, size));
    CollectKeepsReplay(LogSpans(log[..k]), log[k].ents, LogSpans(log[k + 1..]), size, index);
  }

  // -------------------------------------------------- how much a walk can move

  predicate LiveAtPage(e: Ent, j: nat, fp: nat) {
    FirstPage(e.rec) + j <= fp && fp - FirstPage(e.rec) !in e.dead
  }

  /** The file pages of the live positions of `e` from `j` on. */
  function LiveFrom(e: Ent, j: nat): (r: set<nat>)
    ensures forall fp :: fp in r <==> FirstPage(e.rec) + j <= fp < FirstPage(e.rec) + |e.pages| && fp - FirstPage(e.rec) !in e.dead
  {
    set fp: nat | fp < FirstPage(e.rec) + |e.pages| && LiveAtPage(e, j, fp)
  }

  lemma {:induction false} RunsBound(e: Ent, size: nat, j: nat)
    requires j <= |e.pages|
    ensures |LiveRuns(e, size, j)| <= |LiveFrom(e, j)|
    decreases |e.pages| - j
  {
    hide LiveFrom, Piece;
    var n := |e.pages|;
    if j < n {
      var d := j in e.dead;
      var k := RunEnd(e.dead, n, j, d);
      RunsBound(e, size, k);
      if d {
        SubsetSize(LiveFrom(e, k), LiveFrom(e, j));
      } else {
        var fp := FirstPage(e.rec) + j;
        SubsetSize(LiveFrom(e, k) + {fp}, LiveFrom(e, j));
      }
    }
  }

  function LiveOf(ents: seq<Ent>): set<nat> {
    if ents == [] then {} else LiveFrom(ents[0], 0) + LiveOf(ents[1..])
  }

  lemma {:induction false} LiveOfWitness(ents: seq<Ent>, fp: nat) returns (s: nat)
    requires fp in LiveOf(ents)
    ensures s < |ents| && fp in LiveFrom(ents[s], 0)
  {
    if fp in LiveFrom(ents[0], 0) {
      s := 0;
    } else {
      s := LiveOfWitness(ents[1..], fp);
      s := s + 1;
    }
  }

  /** Different entries have different pages. */
  ghost predicate PagesApart(ents: seq<Ent>) {
    forall s, t, i, j | 0 <= s < t < |ents| && 0 <= i < |ents[s].pages| && 0 <= j < |ents[t].pages| :: ents[s].pages[i] != ents[t].pages[j]
  }

  /** The index gives the page of a live position. */
  lemma LiveGiven(e: Ent, index: map<nat, int>, fp: nat)
    requires MarksOk(e, index, {}) && fp in LiveFrom(e, 0)
    ensures var i := fp - FirstPage(e.rec); 0 <= i < |e.pages| && Lookup(index, fp) == Some(e.pages[i])
  {
    MarkedAt(e, index, {}, fp - FirstPage(e.rec));
  }

  lemma DisjointSize(a: set<nat>, b: set<nat>)
    requires a !! b
    ensures |a + b| == |a| + |b|
  {
  }

  lemma {:induction false} BlockRunsBound(ents: seq<Ent>, size: nat, index: map<nat, int>)
    requires PagesApart(ents) && forall s | 0 <= s < |ents| :: MarksOk(ents[s], index, {})
    ensures |BlockRuns(ents, size)| <= |LiveOf(ents)|
  {
    hide LiveRuns, LiveFrom, MarksOk;
    if ents != [] {
      var e, rest := ents[0], ents[1..];
      assert forall s | 0 <= s < |rest| :: rest[s] == ents[s + 1];
      BlockRunsBound(rest, size, index);
      RunsBound(e, size, 0);
      forall fp | fp in LiveFrom(e, 0) ensures fp !in LiveOf(rest) {
        if fp in LiveOf(rest) {
          var s := LiveOfWitness(rest, fp);
          LiveGiven(e, index, fp);
          LiveGiven(rest[s], index, fp);
        }
      }
      DisjointSize(LiveFrom(e, 0), LiveOf(rest));
    }
  }

  function LogLive(log: seq<LogPage>, v: nat): set<nat>
    requires v <= |log|
  {
    if v == 0 then {} else LogLive(log, v - 1) + LiveOf(log[v - 1].ents)
  }

  lemma {:induction false} LogLiveWitness(log: seq<LogPage>, v: nat, fp: nat) returns (k: nat, s: nat)
    requires v <= |log| && fp in LogLive(log, v)
    ensures k < v && s < |log[k].ents| && fp in LiveFrom(log[k].ents[s], 0)
  {
    if fp in LiveOf(log[v - 1].ents) {
      k := v - 1;
      s := LiveOfWitness(log[k].ents, fp);
    } else {
      k, s := LogLiveWitness(log, v - 1, fp);
    }
  }

  lemma EntriesApart(m: Mem, ino: nat, log: seq<LogPage>, k: nat)
    requires LogOk(m, ino, log, 0) && k < |log|
    ensures PagesApart(log[k].ents)
  {
    hide LogOk;
    forall s, t, i, j | 0 <= s < t < |log[k].ents| && 0 <= i < |log[k].ents[s].pages| && 0 <= j < |log[k].ents[t].pages|
      ensures log[k].ents[s].pages[i] != log[k].ents[t].pages[j]
    {
      if log[k].ents[s].pages[i] == log[k].ents[t].pages[j] {
        PageUnique(m, ino, log, 0, k, s, i, k, t, j);
      }
    }
  }

  lemma PagesDisjoint(m: Mem, ino: nat, log: seq<LogPage>, index: map<nat, int>, v: nat)
    requires LogOk(m, ino, log, 0) && MarksAll(log, index, {}) && v < |log|
    ensures LogLive(log, v) !! LiveOf(log[v].ents)
  {
    hide LogOk, LogLive, LiveOf, LiveFrom, MarksOk;
    forall fp | fp in LogLive(log, v) ensures fp !in LiveOf(log[v].ents) {
      if fp in LiveOf(log[v].ents) {
        var k, s := LogLiveWitness(log, v, fp);
        var t := LiveOfWitness(log[v].ents, fp);
        assert MarksOk(log[k].ents[s], index, {}) && MarksOk(log[v].ents[t], index, {});
        LiveGiven(log[k].ents[s], index, fp);
        LiveGiven(log[v].ents[t], index, fp);
        PageUnique(m, ino, log, 0, k, s, fp - FirstPage(log[k].ents[s].rec), v, t, fp - FirstPage(log[v].ents[t].rec));
      }
    }
  }

  lemma {:induction false} MovedLive(m: Mem, ino: nat, log: seq<LogPage>, index: map<nat, int>, v: nat, size: nat)
    requires LogOk(m, ino, log, 0) && MarksAll(log, index, {}) && v <= |log|
    ensures |Moved(log[..v], size)| <= |LogLive(log, v)|
  {
    hide LogOk, MarksOk, Picked, BlockRuns, LiveOf;
    if v > 0 {
      hide Moved;
      MovedLive(m, ino, log, index, v - 1, size);
      SurvivorsNext(log, v - 1, size);
      EntriesApart(m, ino, log, v - 1);
      BlockRunsBound(log[v - 1].ents, size, index);
      PagesDisjoint(m, ino, log, index, v - 1);
      DisjointSize(LogLive(log, v - 1), LiveOf(log[v - 1].ents));
    } else {
      assert log[..0] == [];
    }
  }

  /** A walk moves at most one run per file page the index gives. */
  lemma MovedBound(m: Mem, ino: nat, log: seq<LogPage>, index: map<nat, int>, size: nat)
    requires StoredLog(m, ino, log, index)
    ensures log != [] && |Moved(log[..|log| - 1], size)| <= |index.Keys|
  {
    hide LogOk, Moved, LogLive, MarksOk, Replays, NoLeak, LiveFrom;
    var n := |log| - 1;
    MovedLive(m, ino, log, index, n, size);
    forall fp | fp in LogLive(log, n) ensures fp in index {
      var k, s := LogLiveWitness(log, n, fp);
      assert MarksOk(log[k].ents[s], index, {});
      LiveGiven(log[k].ents[s], index, fp);
    }
    SubsetSize(LogLive(log, n), index.Keys);
  }
}
