/** The per-inode log as values: entries, what they say about the file, and what
    collecting a log page does to them. */
module LogModel {
  import opened Chains
  import opened Layout
  import opened Bitmap

  datatype Option<+T> = None | Some(value: T)

  /** A log position: slot `slot` of log page `page`. */
  datatype Pos = Pos(page: int, slot: nat)

  /** `struct file_log_entry`.  `data` is the first page of the entry's chain. */
  datatype Entry = Entry(data: int, fileSize: nat, startOff: nat, endOff: nat,
                         numPages: nat, invalidPages: nat, bitmap: bv64)

  /** `entry_invalid_page`. */
  predicate InvalidPage(e: Entry, i: nat)
    requires i < MAX_PAGES
  {
    Marked(e.bitmap, i)
  }

  /** The bit tells whether the position is one of the overwritten ones. */
  lemma InvalidIffDead(e: Ent, i: nat)
    requires Represents(e.rec.bitmap, e.dead) && i < MAX_PAGES
    ensures InvalidPage(e.rec, i) <==> i in e.dead
  {
    hide Marked;
  }

  /** The counters of a log page's header. */
  datatype Counters = Counters(objCnt: nat, invalidCnt: nat, pagesCnt: nat, invalidPages: nat)

  /** An entry together with its chain of data pages and the positions of the
      overwritten ones, those whose bit is set in the bitmap. */
  datatype Ent = Ent(rec: Entry, pages: seq<int>, dead: set<nat>)

  datatype LogPage = LogPage(id: int, ents: seq<Ent>)

  /** The part of an entry that says where file pages are. */
  datatype Span = Span(first: nat, pages: seq<int>)

  const MAX_PAGES := 64 // MAX_NUM_PAGE_PER_ENTRY

  function FirstPage(e: Entry): nat {
    e.startOff / PAGE_SIZE
  }

  function SpanOf(e: Ent): Span {
    Span(FirstPage(e.rec), e.pages)
  }

  function EntSpans(ents: seq<Ent>): (r: seq<Span>)
    ensures |r| == |ents| && forall i | 0 <= i < |r| :: r[i] == SpanOf(ents[i])
  {
    seq(|ents|, i requires 0 <= i < |ents| => SpanOf(ents[i]))
  }

  /** All spans of a log, oldest first. */
  function LogSpans(log: seq<LogPage>): seq<Span> {
    if log == [] then [] else LogSpans(log[..|log| - 1]) + EntSpans(log[|log| - 1].ents)
  }

  /** All entries of a log, oldest first. */
  function Entries(log: seq<LogPage>): seq<Ent> {
    if log == [] then [] else Entries(log[..|log| - 1]) + log[|log| - 1].ents
  }

  lemma EntSpansConcat(a: seq<Ent>, b: seq<Ent>)
    ensures EntSpans(a + b) == EntSpans(a) + EntSpans(b)
  {
  }

  lemma {:induction false} EntriesSpans(log: seq<LogPage>)
    ensures EntSpans(Entries(log)) == LogSpans(log)
  {
    if log != [] {
      EntriesSpans(log[..|log| - 1]);
      EntSpansConcat(Entries(log[..|log| - 1]), log[|log| - 1].ents);
    }
  }

  lemma EntriesLast(log: seq<LogPage>, p: LogPage)
    ensures Entries(log + [p]) == Entries(log) + p.ents
  {
    assert (log + [p])[..|log|] == log;
  }

  lemma {:induction false} EntriesConcat(a: seq<LogPage>, b: seq<LogPage>)
    ensures Entries(a + b) == Entries(a) + Entries(b)
  {
    if b == [] {
      assert a + b == a;
    } else {
      hide Entries;
      var c, p := b[..|b| - 1], b[|b| - 1];
      EntriesConcat(a, c);
      assert b == c + [p] && a + b == a + c + [p];
      EntriesLast(c, p);
      EntriesLast(a + c, p);
      assert Entries(a) + Entries(c) + p.ents == Entries(a) + (Entries(c) + p.ents);
    }
  }

  predicate In(e: Span, fp: int) {
    e.first <= fp < e.first + |e.pages|
  }

  /** Replay, one file page at a time: the page the last covering entry gives. */
  function Cover(l: seq<Span>, fp: nat): Option<int> {
    if l == [] then None
    else
      var e := l[|l| - 1];
      if In(e, fp) then Some(e.pages[fp - e.first]) else Cover(l[..|l| - 1], fp)
  }

  /** The last writer wins. */
  lemma {:induction false} CoverConcat(a: seq<Span>, b: seq<Span>, fp: nat)
    ensures Cover(a + b, fp) == if Cover(b, fp).Some? then Cover(b, fp) else Cover(a, fp)
  {
    if b == [] {
      assert a + b == a;
    } else {
      var c := a + b;
      assert c[..|c| - 1] == a + b[..|b| - 1];
      CoverConcat(a, b[..|b| - 1], fp);
    }
  }

  lemma {:induction false} CoverWitness(l: seq<Span>, fp: nat) returns (n: nat)
    requires Cover(l, fp).Some?
    ensures n < |l| && In(l[n], fp) && l[n].pages[fp - l[n].first] == Cover(l, fp).value
  {
    if In(l[|l| - 1], fp) {
      n := |l| - 1;
    } else {
      n := CoverWitness(l[..|l| - 1], fp);
    }
  }

  lemma {:induction false} CoverNone(l: seq<Span>, fp: nat)
    ensures Cover(l, fp) == None <==> forall n | 0 <= n < |l| :: !In(l[n], fp)
  {
    if l != [] {
      CoverNone(l[..|l| - 1], fp);
      assert forall n | 0 <= n < |l| - 1 :: l[..|l| - 1][n] == l[n];
    }
  }

  function Lookup(index: map<nat, int>, fp: nat): Option<int> {
    if fp in index then Some(index[fp]) else None
  }

  /** The index is the replay of the log. */
  ghost predicate Replays(l: seq<Span>, index: map<nat, int>) {
    forall fp: nat :: Cover(l, fp) == Lookup(index, fp)
  }

  /** Position `i` of `e` is marked in the bitmap exactly when the index has moved
      on.  Pages in `pend` are written but not yet in the index. */
  ghost predicate MarksOk(e: Ent, index: map<nat, int>, pend: set<int>) {
    forall i | 0 <= i < |e.pages| ::
      i in e.dead <==> e.pages[i] !in pend && Lookup(index, FirstPage(e.rec) + i) != Some(e.pages[i])
  }

  /** In a log whose index is its replay, the index has moved on from a page that
      occurs nowhere later if and only if a later entry covers its file page. */
  lemma MovedOnIffCovered(l: seq<Span>, index: map<nat, int>, n: nat, i: nat)
    requires Replays(l, index) && n < |l| && i < |l[n].pages|
    requires forall m, k | n < m < |l| && 0 <= k < |l[m].pages| :: l[m].pages[k] != l[n].pages[i]
    ensures Lookup(index, l[n].first + i) != Some(l[n].pages[i]) <==> exists m :: n < m < |l| && In(l[m], l[n].first + i)
  {
    var fp := l[n].first + i;
    var early, late := l[..n + 1], l[n + 1..];
    assert l == early + late;
    CoverConcat(early, late, fp);
    if Cover(late, fp).Some? {
      var m := CoverWitness(late, fp);
      assert late[m] == l[n + 1 + m];
    } else {
      CoverNone(late, fp);
      forall m | n < m < |l|
        ensures !In(l[m], fp)
      {
        assert late[m - n - 1] == l[m];
      }
    }
  }

  // ----------------------------------------------------------------- counters

  /** What the counters of a log page with entries `ents` should say. */
  function CountersOf(ents: seq<Ent>): Counters {
    if ents == [] then Counters(0, 0, 0, 0)
    else
      var c, e := CountersOf(ents[..|ents| - 1]), ents[|ents| - 1];
      Counters(c.objCnt + 1, c.invalidCnt + (if |e.dead| == |e.pages| then 1 else 0),
               c.pagesCnt + |e.pages|, c.invalidPages + |e.dead|)
  }

  /** The counter updates of `invalidate_old_log_entry`. */
  function Invalidated(c: Counters, full: bool): Counters {
    c.(invalidPages := c.invalidPages + 1, invalidCnt := c.invalidCnt + if full then 1 else 0)
  }

  lemma {:induction false} CountersInvalidate(ents: seq<Ent>, s: nat, e: Ent)
    requires s < |ents| && |e.pages| == |ents[s].pages|
    requires |e.dead| == |ents[s].dead| + 1 <= |e.pages|
    ensures CountersOf(ents[s := e]) == Invalidated(CountersOf(ents), |e.dead| == |e.pages|)
  {
    var n := |ents| - 1;
    var u := ents[s := e];
    if s == n {
      assert u[..n] == ents[..n];
    } else {
      assert u[..n] == ents[..n][s := e];
      CountersInvalidate(ents[..n], s, e);
    }
  }

  lemma {:induction false} CountersCount(ents: seq<Ent>)
    ensures CountersOf(ents).objCnt == |ents|
  {
    if ents != [] {
      CountersCount(ents[..|ents| - 1]);
    }
  }

  /** The collector's test (src/gc.c:156-157). */
  predicate Collectable(c: Counters) {
    2 * c.invalidCnt > c.objCnt || 2 * c.invalidPages > c.pagesCnt
  }

  ghost predicate Sizes(ents: seq<Ent>) {
    forall s | 0 <= s < |ents| :: 0 < |ents[s].pages|
  }

  lemma {:induction false} InvalidEntriesHavePages(ents: seq<Ent>)
    requires Sizes(ents)
    ensures CountersOf(ents).invalidCnt <= CountersOf(ents).invalidPages
    ensures CountersOf(ents).objCnt == |ents|
  {
    if ents != [] {
      InvalidEntriesHavePages(ents[..|ents| - 1]);
    }
  }

  /** The page counters: all data pages, and the overwritten ones among them. */
  lemma {:induction false} CountersBound(ents: seq<Ent>)
    requires DeadBounded(ents)
    ensures CountersOf(ents).invalidPages <= CountersOf(ents).pagesCnt
    ensures CountersOf(ents).invalidPages == CountersOf(ents).pagesCnt <==>
            forall s | 0 <= s < |ents| :: |ents[s].dead| == |ents[s].pages|
  {
    if ents != [] {
      var rest := ents[..|ents| - 1];
      assert forall s | 0 <= s < |rest| :: rest[s] == ents[s];
      CountersBound(rest);
      assert ents[|ents| - 1].dead == ents[|ents| - 1].dead;
    }
  }

  ghost predicate DeadBounded(ents: seq<Ent>) {
    forall s | 0 <= s < |ents| :: |ents[s].dead| <= |ents[s].pages|
  }

  /** A page the collector picks has an overwritten data page to free. */
  lemma CollectableHasInvalid(ents: seq<Ent>)
    requires Sizes(ents) && Collectable(CountersOf(ents))
    ensures CountersOf(ents).invalidPages > 0
  {
    InvalidEntriesHavePages(ents);
  }

  // --------------------------------------------------------------- live and dead runs

  /** The end of the run of positions from `j` that are all marked (`d`) or all not. */
  function RunEnd(dead: set<nat>, n: nat, j: nat, d: bool): (k: nat)
    requires j <= n
    ensures j <= k <= n
    ensures forall i | j <= i < k :: i in dead <==> d
    ensures k < n ==> (k in dead <==> !d)
    decreases n - j
  {
    if j == n || (j in dead) != d then j else RunEnd(dead, n, j + 1, d)
  }

  /** The entry `gc_log_block` makes for the live positions `j..m` of `e`. */
  function Piece(e: Ent, size: nat, j: nat, m: nat): Ent
    requires j < m <= |e.pages|
  {
    var base := FirstPage(e.rec) * PAGE_SIZE;
    Ent(Entry(e.pages[j], size, base + j * PAGE_SIZE,
              if m == |e.pages| then e.rec.endOff else base + m * PAGE_SIZE,
              m - j, 0, 0),
        e.pages[j..m], {})
  }

  /** The maximal live runs of `e` from position `j` on. */
  function LiveRuns(e: Ent, size: nat, j: nat): seq<Ent>
    requires j <= |e.pages|
    decreases |e.pages| - j
  {
    var n := |e.pages|;
    if j == n then []
    else if j in e.dead then LiveRuns(e, size, RunEnd(e.dead, n, j, true))
    else
      var m := RunEnd(e.dead, n, j, false);
      [Piece(e, size, j, m)] + LiveRuns(e, size, m)
  }

  /** They are maximal: what is before and behind each of them is overwritten. */
  lemma {:induction false} RunsMaximal(e: Ent, size: nat, j: nat, k: nat) returns (a: nat, b: nat)
    requires j <= |e.pages| && (j == 0 || j - 1 in e.dead || j in e.dead) && k < |LiveRuns(e, size, j)|
    ensures j <= a < b <= |e.pages| && LiveRuns(e, size, j)[k] == Piece(e, size, a, b)
    ensures forall i | a <= i < b :: i !in e.dead
    ensures (a == 0 || a - 1 in e.dead) && (b == |e.pages| || b in e.dead)
    decreases |e.pages| - j
  {
    hide Piece;
    var m := RunEnd(e.dead, |e.pages|, j, j in e.dead);
    if j !in e.dead && k == 0 {
      a, b := j, m;
    } else if j in e.dead {
      a, b := RunsMaximal(e, size, m, k);
    } else {
      a, b := RunsMaximal(e, size, m, k - 1);
    }
  }

  /** The free chain after the dead runs of `e` from `j` on went onto `fc`. */
  function Freed(fc: seq<int>, e: Ent, j: nat): seq<int>
    requires j <= |e.pages|
    decreases |e.pages| - j
  {
    var n := |e.pages|;
    if j == n then fc
    else if j in e.dead then
      var m := RunEnd(e.dead, n, j, true);
      Freed(SpliceAfterHead(fc, e.pages[j..m]), e, m)
    else Freed(fc, e, RunEnd(e.dead, n, j, false))
  }

  function PagesOf(ents: seq<Ent>): seq<int> {
    if ents == [] then [] else ents[0].pages + PagesOf(ents[1..])
  }

  function BlockRuns(ents: seq<Ent>, size: nat): seq<Ent> {
    if ents == [] then [] else LiveRuns(ents[0], size, 0) + BlockRuns(ents[1..], size)
  }

  function BlockFreed(fc: seq<int>, ents: seq<Ent>): seq<int>
    decreases |ents|
  {
    if ents == [] then fc else BlockFreed(Freed(fc, ents[0], 0), ents[1..])
  }

  /** How often page `x` occurs in a chain. */
  function Tally(s: seq<int>, x: int): nat {
    multiset(s)[x]
  }

  lemma TallyConcat(a: seq<int>, b: seq<int>, x: int)
    ensures Tally(a + b, x) == Tally(a, x) + Tally(b, x)
  {
    assert multiset(a + b) == multiset(a) + multiset(b);
  }

  lemma TallySplice(s: seq<int>, c: seq<int>, x: int)
    ensures Tally(SpliceAfterHead(s, c), x) == Tally(s, x) + Tally(c, x)
  {
    if s != [] {
      assert s == [s[0]] + s[1..];
      TallyConcat([s[0]], s[1..], x);
      TallyConcat([s[0]], c, x);
      TallyConcat([s[0]] + c, s[1..], x);
    }
  }

  lemma {:induction false} PagesOfConcat(a: seq<Ent>, b: seq<Ent>)
    ensures PagesOf(a + b) == PagesOf(a) + PagesOf(b)
  {
    if a == [] {
      assert a + b == b;
    } else {
      PagesOfConcat(a[1..], b);
      assert (a + b)[1..] == a[1..] + b && (a + b)[0] == a[0];
      assert PagesOf(a + b) == a[0].pages + (PagesOf(a[1..]) + PagesOf(b));
    }
  }

  /** Collecting an entry loses no page and duplicates none: each is in one new
      entry or on the free chain. */
  lemma {:induction false} EntryPartition(fc: seq<int>, e: Ent, size: nat, j: nat, x: int)
    requires j <= |e.pages|
    ensures Tally(PagesOf(LiveRuns(e, size, j)), x) + Tally(Freed(fc, e, j), x) == Tally(e.pages[j..], x) + Tally(fc, x)
    decreases |e.pages| - j
  {
    hide SpliceAfterHead, Tally, PagesOf;
    var n := |e.pages|;
    if j == n {
      EmptyRuns(e, size, x);
    } else {
      var d := j in e.dead;
      var m := RunEnd(e.dead, n, j, d);
      assert e.pages[j..] == e.pages[j..m] + e.pages[m..];
      TallyConcat(e.pages[j..m], e.pages[m..], x);
      if d {
        TallySplice(fc, e.pages[j..m], x);
        EntryPartition(SpliceAfterHead(fc, e.pages[j..m]), e, size, m, x);
      } else {
        EntryPartition(fc, e, size, m, x);
        FirstPages(Piece(e, size, j, m), LiveRuns(e, size, m), x);
      }
    }
  }

  lemma EmptyRuns(e: Ent, size: nat, x: int)
    ensures Tally(PagesOf(LiveRuns(e, size, |e.pages|)), x) == Tally(e.pages[|e.pages|..], x) == 0
  {
  }

  lemma FirstPages(p: Ent, rest: seq<Ent>, x: int)
    ensures Tally(PagesOf([p] + rest), x) == Tally(p.pages, x) + Tally(PagesOf(rest), x)
  {
    assert ([p] + rest)[1..] == rest;
    TallyConcat(p.pages, PagesOf(rest), x);
  }

  /** The same for a whole log page. */
  lemma {:induction false} BlockPartition(fc: seq<int>, ents: seq<Ent>, size: nat, x: int)
    ensures Tally(PagesOf(BlockRuns(ents, size)), x) + Tally(BlockFreed(fc, ents), x) == Tally(PagesOf(ents), x) + Tally(fc, x)
    decreases |ents|
  {
    hide Tally, LiveRuns, Freed, PagesOf;
    if ents == [] {
      NoPages(x);
    } else {
      var a, b := LiveRuns(ents[0], size, 0), BlockRuns(ents[1..], size);
      EntryPartition(fc, ents[0], size, 0, x);
      assert ents[0].pages[0..] == ents[0].pages;
      BlockPartition(Freed(fc, ents[0], 0), ents[1..], size, x);
      PagesOfConcat(a, b);
      TallyConcat(PagesOf(a), PagesOf(b), x);
      assert ents == [ents[0]] + ents[1..];
      FirstPages(ents[0], ents[1..], x);
    }
  }

  lemma NoPages(x: int)
    ensures Tally(PagesOf([]), x) == 0
  {
  }

  function Range(j: nat, m: nat): (r: set<nat>)
    requires j <= m
    ensures |r| == m - j && forall i :: i in r <==> j <= i < m
    decreases m - j
  {
    if j == m then {} else {j} + Range(j + 1, m)
  }

  /** Positions of the marked pages from `j` on. */
  function DeadFrom(e: Ent, j: nat): set<nat> {
    set i | i in e.dead && j <= i
  }

  lemma {:induction false} FreedLength(fc: seq<int>, e: Ent, j: nat)
    requires j <= |e.pages| && forall i | i in e.dead :: i < |e.pages|
    ensures |Freed(fc, e, j)| == |fc| + |DeadFrom(e, j)|
    decreases |e.pages| - j
  {
    var n := |e.pages|;
    if j == n {
      assert DeadFrom(e, j) == {};
    } else if j in e.dead {
      var m := RunEnd(e.dead, n, j, true);
      SpliceMembers(fc, e.pages[j..m]);
      FreedLength(SpliceAfterHead(fc, e.pages[j..m]), e, m);
      assert DeadFrom(e, j) == Range(j, m) + DeadFrom(e, m);
    } else {
      var m := RunEnd(e.dead, n, j, false);
      FreedLength(fc, e, m);
      assert DeadFrom(e, j) == DeadFrom(e, m);
    }
  }

  ghost predicate DeadInRange(ents: seq<Ent>) {
    forall s, i | 0 <= s < |ents| && i in ents[s].dead :: i < |ents[s].pages|
  }

  /** The free chain is exactly as long as the header's `invalid_pages` says. */
  lemma {:induction false} BlockFreedLength(fc: seq<int>, ents: seq<Ent>)
    requires DeadInRange(ents)
    ensures |BlockFreed(fc, ents)| == |fc| + CountersOf(ents).invalidPages
    decreases |ents|
  {
    if ents != [] {
      var e := ents[0];
      FreedLength(fc, e, 0);
      assert DeadFrom(e, 0) == e.dead;
      assert forall s | 0 <= s < |ents| - 1 :: ents[1..][s] == ents[s + 1];
      BlockFreedLength(Freed(fc, e, 0), ents[1..]);
      CountersFirst(ents);
    }
  }

  lemma {:induction false} CountersFirst(ents: seq<Ent>)
    requires ents != []
    ensures CountersOf(ents).invalidPages == |ents[0].dead| + CountersOf(ents[1..]).invalidPages
  {
    var n := |ents| - 1;
    if n == 0 {
      assert ents[..0] == [] && ents[1..] == [];
    } else {
      CountersFirst(ents[..n]);
      assert ents[..n][1..] == ents[1..][..n - 1];
    }
  }

  lemma DeadSize(e: Ent)
    requires forall i | i in e.dead :: i < |e.pages|
    ensures |e.dead| <= |e.pages|
    ensures |e.dead| == |e.pages| <==> forall i | 0 <= i < |e.pages| :: i in e.dead
  {
    var all := Range(0, |e.pages|);
    assert e.dead <= all;
    SubsetSize(e.dead, all);
  }

  lemma {:induction false} SubsetSize(a: set<nat>, b: set<nat>)
    requires a <= b
    ensures |a| <= |b| && (|a| == |b| <==> a == b)
  {
    if a != {} {
      var x :| x in a;
      SubsetSize(a - {x}, b - {x});
    }
  }

  lemma {:induction false} NoLiveRuns(e: Ent, size: nat, j: nat)
    requires j <= |e.pages|
    ensures LiveRuns(e, size, j) == [] <==> forall i | j <= i < |e.pages| :: i in e.dead
    decreases |e.pages| - j
  {
    if j < |e.pages| && j in e.dead {
      NoLiveRuns(e, size, RunEnd(e.dead, |e.pages|, j, true));
    }
  }

  /** A collection moves nothing exactly when the header counts every data page of the
      page as overwritten. */
  lemma {:induction false} NothingMoves(ents: seq<Ent>, size: nat)
    requires DeadInRange(ents)
    ensures BlockRuns(ents, size) == [] <==> CountersOf(ents).invalidPages == CountersOf(ents).pagesCnt
  {
    forall s | 0 <= s < |ents|
      ensures |ents[s].dead| <= |ents[s].pages|
      ensures LiveRuns(ents[s], size, 0) == [] <==> |ents[s].dead| == |ents[s].pages|
    {
      DeadSize(ents[s]);
      NoLiveRuns(ents[s], size, 0);
    }
    NoBlockRuns(ents, size);
    CountersBound(ents);
  }

  lemma {:induction false} NoBlockRuns(ents: seq<Ent>, size: nat)
    ensures BlockRuns(ents, size) == [] <==> forall s | 0 <= s < |ents| :: LiveRuns(ents[s], size, 0) == []
  {
    if ents != [] {
      NoBlockRuns(ents[1..], size);
      assert forall s | 0 < s < |ents| :: ents[s] == ents[1..][s - 1];
    }
  }

  // ----------------------------------------------- what the counters of a page count

  /** The entries all of whose data pages are overwritten. */
  ghost function DeadEntries(ents: seq<Ent>): set<nat> {
    set s: nat | s < |ents| && forall i | 0 <= i < |ents[s].pages| :: i in ents[s].dead
  }

  /** The data pages of the entries: entry and position. */
  ghost function DataPages(ents: seq<Ent>): set<(nat, nat)> {
    set s: nat, i: nat | s < |ents| && i < |ents[s].pages| :: (s, i)
  }

  /** Those that are overwritten. */
  ghost function DeadPages(ents: seq<Ent>): set<(nat, nat)> {
    set s: nat, i: nat | s < |ents| && i < |ents[s].pages| && i in ents[s].dead :: (s, i)
  }

  function PagesOfEntry(s: nat, d: set<nat>): set<(nat, nat)> {
    set i | i in d :: (s, i)
  }

  lemma {:induction false} PagesOfEntrySize(s: nat, d: set<nat>)
    ensures |PagesOfEntry(s, d)| == |d|
  {
    if d != {} {
      var x :| x in d;
      PagesOfEntrySize(s, d - {x});
      assert PagesOfEntry(s, d) == PagesOfEntry(s, d - {x}) + {(s, x)};
    }
  }

  /** The counters of a log page are the sizes of these sets. */
  lemma {:induction false} CountersMean(ents: seq<Ent>)
    requires DeadInRange(ents)
    ensures CountersOf(ents) == Counters(|ents|, |DeadEntries(ents)|, |DataPages(ents)|, |DeadPages(ents)|)
  {
    if ents == [] {
      assert DeadEntries(ents) == {} && DataPages(ents) == {} && DeadPages(ents) == {};
    } else {
      var n := |ents| - 1;
      var rest, e := ents[..n], ents[n];
      hide DeadEntries, DataPages, DeadPages;
      CountersMean(rest);
      DeadEntriesNext(ents);
      DataPagesNext(ents);
      DeadPagesNext(ents);
    }
  }

  lemma DeadEntriesNext(ents: seq<Ent>)
    requires DeadInRange(ents) && ents != []
    ensures var n := |ents| - 1; var e := ents[n];
      |DeadEntries(ents)| == |DeadEntries(ents[..n])| + if |e.dead| == |e.pages| then 1 else 0
  {
    var n := |ents| - 1;
    var rest, e := ents[..n], ents[n];
    DeadSize(e);
    var last := if |e.dead| == |e.pages| then {n} else {};
    forall s: nat ensures s in DeadEntries(ents) <==> s in DeadEntries(rest) || s in last {
      if s < n {
        assert ents[s] == rest[s];
      }
    }
    assert DeadEntries(ents) == DeadEntries(rest) + last;
    assert n !in DeadEntries(rest);
  }

  lemma DataPagesNext(ents: seq<Ent>)
    requires ents != []
    ensures var n := |ents| - 1; |DataPages(ents)| == |DataPages(ents[..n])| + |ents[n].pages|
  {
    var n := |ents| - 1;
    var rest, last := ents[..n], PagesOfEntry(n, Range(0, |ents[n].pages|));
    PagesOfEntrySize(n, Range(0, |ents[n].pages|));
    assert DataPages(ents) == DataPages(rest) + last;
    assert DataPages(rest) !! last;
  }

  lemma DeadPagesNext(ents: seq<Ent>)
    requires DeadInRange(ents) && ents != []
    ensures var n := |ents| - 1; |DeadPages(ents)| == |DeadPages(ents[..n])| + |ents[n].dead|
  {
    var n := |ents| - 1;
    var rest, last := ents[..n], PagesOfEntry(n, ents[n].dead);
    PagesOfEntrySize(n, ents[n].dead);
    assert DeadPages(ents) == DeadPages(rest) + last;
    assert DeadPages(rest) !! last;
  }

  /** The collector's test on the header is the one on entries and data pages: more than
      half of the ones or more than half of the others are overwritten. */
  lemma CollectableIff(ents: seq<Ent>)
    requires DeadInRange(ents)
    ensures Collectable(CountersOf(ents)) <==>
            2 * |DeadEntries(ents)| > |ents| || 2 * |DeadPages(ents)| > |DataPages(ents)|
  {
    CountersMean(ents);
  }

  // -------------------------------------------------------- collection and replay

  /** The live runs of `e` map exactly its live file pages, to the same pages. */
  lemma {:induction false} RunsCover(e: Ent, size: nat, j: nat, fp: nat)
    requires j <= |e.pages|
    ensures var i := fp - FirstPage(e.rec);
      Cover(EntSpans(LiveRuns(e, size, j)), fp) ==
      if j <= i < |e.pages| && i !in e.dead then Some(e.pages[i]) else None
    decreases |e.pages| - j
  {
    hide Piece, SpanOf, FirstPage, Cover;
    var n := |e.pages|;
    if j == n {
      assert LiveRuns(e, size, j) == [];
      CoverNothing(fp);
    } else if j in e.dead {
      RunsCover(e, size, RunEnd(e.dead, n, j, true), fp);
    } else {
      var m := RunEnd(e.dead, n, j, false);
      RunsCover(e, size, m, fp);
      var p, rest := Piece(e, size, j, m), LiveRuns(e, size, m);
      var a, b := EntSpans([p]), EntSpans(rest);
      assert EntSpans([p] + rest) == a + b;
      CoverConcat(a, b, fp);
      PieceCover(e, size, j, m, fp);
    }
  }

  lemma CoverNothing(fp: nat)
    ensures Cover(EntSpans([]), fp) == None
  {
  }

  lemma PieceCover(e: Ent, size: nat, j: nat, m: nat, fp: nat)
    requires j < m <= |e.pages|
    ensures var i := fp - FirstPage(e.rec); Cover(EntSpans([Piece(e, size, j, m)]), fp) == if j <= i < m then Some(e.pages[i]) else None
  {
    hide Piece, FirstPage;
    PieceSpan(e, size, j, m);
    assert EntSpans([Piece(e, size, j, m)])[..0] == [];
  }

  lemma PieceSpan(e: Ent, size: nat, j: nat, m: nat)
    requires j < m <= |e.pages|
    ensures SpanOf(Piece(e, size, j, m)) == Span(FirstPage(e.rec) + j, e.pages[j..m])
  {
    var base := FirstPage(e.rec) * PAGE_SIZE;
    assert base + j * PAGE_SIZE == (FirstPage(e.rec) + j) * PAGE_SIZE;
  }

  /** What the runs of a whole log page cover comes from a live position, and every
      live position is covered. */
  lemma {:induction false} BlockCover(ents: seq<Ent>, size: nat, index: map<nat, int>, fp: nat)
    requires forall s | 0 <= s < |ents| :: MarksOk(ents[s], index, {})
    ensures var r := Cover(EntSpans(BlockRuns(ents, size)), fp);
      && (r.Some? ==> r == Lookup(index, fp))
      && (r == None ==> forall s | 0 <= s < |ents| :: !LiveAt(ents[s], index, fp))
    decreases |ents|
  {
    hide Cover, LiveRuns, MarksOk, LiveAt, BlockRuns;
    if ents == [] {
      NoRuns(size, fp);
    } else {
      var e, rest := ents[0], ents[1..];
      assert forall s | 0 <= s < |rest| :: rest[s] == ents[s + 1];
      BlockCover(rest, size, index, fp);
      EntryCover(e, size, index, fp);
      FirstRuns(ents, size);
      CoverConcat(EntSpans(LiveRuns(e, size, 0)), EntSpans(BlockRuns(rest, size)), fp);
      forall s | 0 <= s < |ents|
        ensures Cover(EntSpans(BlockRuns(ents, size)), fp) == None ==> !LiveAt(ents[s], index, fp)
      {
        assert s > 0 ==> rest[s - 1] == ents[s];
      }
    }
  }

  lemma NoRuns(size: nat, fp: nat)
    ensures Cover(EntSpans(BlockRuns([], size)), fp) == None
  {
  }

  lemma FirstRuns(ents: seq<Ent>, size: nat)
    requires ents != []
    ensures EntSpans(BlockRuns(ents, size)) == EntSpans(LiveRuns(ents[0], size, 0)) + EntSpans(BlockRuns(ents[1..], size))
  {
    hide LiveRuns;
  }

  /** The index has file page `fp` on a page of `e`. */
  predicate LiveAt(e: Ent, index: map<nat, int>, fp: nat) {
    In(SpanOf(e), fp) && Lookup(index, fp) == Some(e.pages[fp - FirstPage(e.rec)])
  }

  lemma EntryCover(e: Ent, size: nat, index: map<nat, int>, fp: nat)
    requires MarksOk(e, index, {})
    ensures var r := Cover(EntSpans(LiveRuns(e, size, 0)), fp);
      (r.Some? ==> r == Lookup(index, fp)) && (r == None ==> !LiveAt(e, index, fp))
  {
    RunsCover(e, size, 0, fp);
  }

  /** Collecting any log page keeps the replay, although its live pages move from
      the middle of the log to its end: `a` are the spans before the page, `c` those
      after it. */
  lemma CollectKeepsReplay(a: seq<Span>, b: seq<Ent>, c: seq<Span>, size: nat, index: map<nat, int>)
    requires Replays(a + EntSpans(b) + c, index)
    requires forall s | 0 <= s < |b| :: MarksOk(b[s], index, {})
    ensures Replays(a + c + EntSpans(BlockRuns(b, size)), index)
  {
    hide Cover, BlockRuns;
    var mid, runs := EntSpans(b), EntSpans(BlockRuns(b, size));
    forall fp: nat
      ensures Cover(a + c + runs, fp) == Lookup(index, fp)
    {
      assert Cover(a + mid + c, fp) == Lookup(index, fp);
      CoverConcat(a + mid, c, fp);
      CoverConcat(a, mid, fp);
      CoverConcat(a + c, runs, fp);
      CoverConcat(a, c, fp);
      BlockCover(b, size, index, fp);
      if Cover(runs, fp) == None && Cover(mid, fp).Some? {
        var n := CoverWitness(mid, fp);
        assert mid[n] == SpanOf(b[n]);
      }
    }
  }

  /** A moved run records its own pages, and where it ends inside the entry, exactly the range
      they cover. */
  lemma PieceRange(e: Ent, size: nat, j: nat, m: nat)
    requires j < m <= |e.pages|
    ensures var p := Piece(e, size, j, m);
      && p.pages == e.pages[j..m] && p.rec.data == p.pages[0] && p.rec.numPages == |p.pages| && p.rec.fileSize == size
      && FirstPage(p.rec) == FirstPage(e.rec) + j && p.rec.startOff % 4096 == 0 && p.dead == {} && p.rec.bitmap == 0
      && (m < |e.pages| ==> p.rec.endOff == p.rec.startOff + 4096 * |p.pages|)
  {
    PieceSpan(e, size, j, m);
  }

  /** As written, an entry written from `offset` inside its first page records an
      end that is `offset` bytes low (src/nvmio.c:338-339).  A live run up to the
      entry's last page then records an end at or below its start exactly when it is
      that last page alone and the missing bytes reach back over it. */
  lemma PieceRangeExact(e: Ent, size: nat, j: nat, offset: nat, wrSize: nat)
    requires j < |e.pages| && e.rec.startOff % PAGE_SIZE == 0 && offset < PAGE_SIZE
    requires (|e.pages| - 1) * PAGE_SIZE < offset + wrSize <= |e.pages| * PAGE_SIZE
    requires e.rec.endOff == e.rec.startOff + wrSize
    ensures Piece(e, size, j, |e.pages|).rec.endOff > Piece(e, size, j, |e.pages|).rec.startOff
            <==> !(j == |e.pages| - 1 && wrSize <= j * PAGE_SIZE)
  {
    if j < |e.pages| - 1 {
      assert (j + 1) * PAGE_SIZE <= (|e.pages| - 1) * PAGE_SIZE;
    }
  }
}
