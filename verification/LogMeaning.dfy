/** What a stored log says about the file, and how appending, indexing and
    unlinking change that. */
module LogMeaning {
  import opened Chains
  import opened PageLists
  import opened Layout
  import opened LogModel
  import opened Region
  import opened LogStore

  // -------------------------------------------------------------- the spans

  lemma AppendSpans(log: seq<LogPage>, e: Ent)
    requires log != []
    ensures LogSpans(Append(log, e)) == LogSpans(log) + [SpanOf(e)]
  {
    var n := |log| - 1;
    var log' := Append(log, e);
    assert log'[..n] == log[..n];
    assert EntSpans(Last(log').ents) == EntSpans(Last(log).ents) + [SpanOf(e)];
    assert LogSpans(log[..n]) + (EntSpans(Last(log).ents) + [SpanOf(e)]) == LogSpans(log[..n]) + EntSpans(Last(log).ents) + [SpanOf(e)];
  }

  lemma NewPageSpans(log: seq<LogPage>, p: int)
    ensures LogSpans(log + [LogPage(p, [])]) == LogSpans(log)
  {
    var log' := log + [LogPage(p, [])];
    assert log'[..|log|] == log;
  }

  lemma {:induction false} MarkSpans(log: seq<LogPage>, k: nat, s: nat, i: nat)
    requires k < |log| && s < |log[k].ents|
    ensures LogSpans(MarkLog(log, k, s, i)) == LogSpans(log)
  {
    var n, log' := |log| - 1, MarkLog(log, k, s, i);
    if k == n {
      assert log'[..n] == log[..n];
      assert EntSpans(log'[n].ents) == EntSpans(log[n].ents);
    } else {
      assert log'[..n] == MarkLog(log[..n], k, s, i);
      MarkSpans(log[..n], k, s, i);
    }
  }

  /** Entry `(k, s)` is span `Flat(log, k) + s` of the log. */
  function Flat(log: seq<LogPage>, k: nat): nat
    requires k <= |log|
  {
    |LogSpans(log[..k])|
  }

  lemma {:induction false} SpanAt(log: seq<LogPage>, k: nat, s: nat)
    requires k < |log| && s < |log[k].ents|
    ensures Flat(log, k) + s < |LogSpans(log)|
    ensures LogSpans(log)[Flat(log, k) + s] == SpanOf(log[k].ents[s])
  {
    var n := |log| - 1;
    if k < n {
      SpanAt(log[..n], k, s);
      assert log[..n][..k] == log[..k];
    }
  }

  lemma FlatNext(log: seq<LogPage>, k: nat)
    requires k < |log|
    ensures Flat(log, k + 1) == Flat(log, k) + |log[k].ents|
  {
    assert log[..k + 1][..k] == log[..k];
  }

  lemma {:induction false} FlatMono(log: seq<LogPage>, j: nat, k: nat)
    requires j < k <= |log|
    ensures Flat(log, j) + |log[j].ents| <= Flat(log, k)
  {
    FlatNext(log, k - 1);
    if j < k - 1 {
      FlatMono(log, j, k - 1);
    }
  }

  lemma FlatAll(log: seq<LogPage>)
    ensures Flat(log, |log|) == |LogSpans(log)|
  {
    assert log[..|log|] == log;
  }

  /** Every span is some entry's. */
  lemma {:induction false} EntryOf(log: seq<LogPage>, n: nat) returns (k: nat, s: nat)
    requires n < |LogSpans(log)|
    ensures k < |log| && s < |log[k].ents| && SpanOf(log[k].ents[s]) == LogSpans(log)[n]
    ensures n == Flat(log, k) + s
  {
    var last := |log| - 1;
    var before := |LogSpans(log[..last])|;
    if n < before {
      k, s := EntryOf(log[..last], n);
      assert log[..last][..k] == log[..k];
    } else {
      k, s := last, n - before;
    }
  }

  // ------------------------------------------------------------ pages in the log

  ghost predicate MarksAll(log: seq<LogPage>, index: map<nat, int>, pend: set<int>) {
    forall k, s | 0 <= k < |log| && 0 <= s < |log[k].ents| :: MarksOk(log[k].ents[s], index, pend)
  }

  /** Data pages name the entry that owns them in their header. */
  ghost predicate BackOk(back: seq<Pos>, pos: Pos, e: Ent) {
    forall i | 0 <= i < |e.pages| :: 0 <= e.pages[i] < |back| && back[e.pages[i]] == pos
  }

  ghost predicate BacksOk(back: seq<Pos>, log: seq<LogPage>) {
    forall k, s | 0 <= k < |log| && 0 <= s < |log[k].ents| :: BackOk(back, Pos(log[k].id, s), log[k].ents[s])
  }

  /** Page `p` is in the chain of the log entry at `pos`. */
  ghost predicate InEntry(log: seq<LogPage>, p: int, pos: Pos) {
    exists k, s :: 0 <= k < |log| && 0 <= s < |log[k].ents| && pos == Pos(log[k].id, s) && p in log[k].ents[s].pages
  }

  ghost predicate Accounted(role: Role, p: int, log: seq<LogPage>, loose: set<int>) {
    if role.LogRole? then p in Ids(log)
    else if role.DataRole? then InEntry(log, p, role.pos)
    else p in loose
  }

  /** Every page the inode holds is accounted for: a log page, in an entry's chain, or
      among `loose`. */
  ghost predicate NoLeak(own: seq<Owner<Use>>, ino: nat, log: seq<LogPage>, loose: set<int>) {
    forall p | 0 <= p < |own| && own[p].Held? && own[p].holder.ino == ino ::
      Accounted(own[p].holder.role, p, log, loose)
  }

  /** A data page is at one position of one entry. */
  lemma PageUnique(m: Mem, ino: nat, log: seq<LogPage>, extra: nat, k: nat, s: nat, i: nat, k': nat, s': nat, i': nat)
    requires LogOk(m, ino, log, extra)
    requires k < |log| && s < |log[k].ents| && i < |log[k].ents[s].pages|
    requires k' < |log| && s' < |log[k'].ents| && i' < |log[k'].ents[s'].pages|
    requires log[k].ents[s].pages[i] == log[k'].ents[s'].pages[i']
    ensures k == k' && s == s' && i == i'
  {
    EntryInLog(m, ino, log, extra, k, s);
    EntryInLog(m, ino, log, extra, k', s');
    LogIds(m, ino, log, extra);
    LinkedNoDup(m.next, log[k].ents[s].pages);
  }

  lemma EntryInLog(m: Mem, ino: nat, log: seq<LogPage>, extra: nat, k: nat, s: nat)
    requires LogOk(m, ino, log, extra) && k < |log| && s < |log[k].ents|
    ensures 0 <= log[k].id < |m.slot| && s < SLOTS
    ensures EntOk(m, ino, Pos(log[k].id, s), m.slot[log[k].id][s], log[k].ents[s])
  {
    LogIds(m, ino, log, extra);
    assert PageOk(m, ino, log[k], if k == |log| - 1 then extra else 0);
  }

  // ------------------------------------------------------------------ indexing

  /** Marks after `index[fp := q]`, for one entry other than the one that gave `fp`
      before. */
  lemma MarksInstallOther(e: Ent, index: map<nat, int>, pend: set<int>, fp: nat, q: int)
    requires MarksOk(e, index, pend) && q in pend
    requires forall i | 0 <= i < |e.pages| && e.pages[i] == q :: FirstPage(e.rec) + i == fp
    requires forall i | 0 <= i < |e.pages| && FirstPage(e.rec) + i == fp :: Lookup(index, fp) != Some(e.pages[i])
    ensures MarksOk(e, index[fp := q], pend - {q})
  {
  }

  lemma MarksInstallOld(e: Ent, index: map<nat, int>, pend: set<int>, fp: nat, q: int, i: nat)
    requires MarksOk(e, index, pend) && q in pend && q !in e.pages
    requires i < |e.pages| && FirstPage(e.rec) + i == fp && e.pages[i] !in pend
    ensures MarksOk(MarkEnt(e, i), index[fp := q], pend - {q})
  {
    var e' := MarkEnt(e, i);
    forall j | 0 <= j < |e'.pages|
      ensures j in e'.dead <==> e'.pages[j] !in pend - {q} && Lookup(index[fp := q], FirstPage(e'.rec) + j) != Some(e'.pages[j])
    {
      assert e.pages[j] != q;
      assert j != i ==> FirstPage(e.rec) + j != fp;
    }
  }

  /** Installing fresh page `q` for a file page that had none. */
  lemma InstallNew(m: Mem, ino: nat, log: seq<LogPage>, index: map<nat, int>, pend: set<int>, fp: nat, q: int, a: nat, t: nat, j: nat)
    requires LogOk(m, ino, log, 0) && MarksAll(log, index, pend) && q in pend && fp !in index
    requires a < |log| && t < |log[a].ents| && j < |log[a].ents[t].pages|
    requires log[a].ents[t].pages[j] == q && FirstPage(log[a].ents[t].rec) + j == fp
    ensures MarksAll(log, index[fp := q], pend - {q})
  {
    hide LogOk, MarksOk;
    forall k, s | 0 <= k < |log| && 0 <= s < |log[k].ents|
      ensures MarksOk(log[k].ents[s], index[fp := q], pend - {q})
    {
      var e := log[k].ents[s];
      forall i | 0 <= i < |e.pages| && e.pages[i] == q
        ensures FirstPage(e.rec) + i == fp
      {
        PageUnique(m, ino, log, 0, k, s, i, a, t, j);
      }
      MarksInstallOther(e, index, pend, fp, q);
    }
  }

  /** Installing `q` for file page `fp` and marking the entry `(k, s)` that gave
      `fp` before: the effect on entry `(x, y)`. */
  lemma InstallOverAt(m: Mem, ino: nat, log: seq<LogPage>, index: map<nat, int>, pend: set<int>, fp: nat, q: int, a: nat, t: nat, j: nat,
                      k: nat, s: nat, i: nat, x: nat, y: nat)
    requires LogOk(m, ino, log, 0) && MarksAll(log, index, pend) && q in pend
    requires a < |log| && t < |log[a].ents| && j < |log[a].ents[t].pages|
    requires log[a].ents[t].pages[j] == q && FirstPage(log[a].ents[t].rec) + j == fp
    requires k < |log| && s < |log[k].ents| && i < |log[k].ents[s].pages|
    requires FirstPage(log[k].ents[s].rec) + i == fp && Lookup(index, fp) == Some(log[k].ents[s].pages[i])
    requires log[k].ents[s].pages[i] !in pend
    requires x < |log| && y < |log[x].ents|
    ensures x == k && y == s ==> MarksOk(MarkEnt(log[x].ents[y], i), index[fp := q], pend - {q})
    ensures !(x == k && y == s) ==> MarksOk(log[x].ents[y], index[fp := q], pend - {q})
  {
    hide LogOk, MarksOk, MarkEnt;
    var e := log[x].ents[y];
    assert MarksOk(e, index, pend);
    if x == k && y == s {
      if q in e.pages {
        var z :| 0 <= z < |e.pages| && e.pages[z] == q;
        PageUnique(m, ino, log, 0, k, s, z, a, t, j);
      }
      MarksInstallOld(e, index, pend, fp, q, i);
    } else {
      forall z | 0 <= z < |e.pages| && e.pages[z] == q
        ensures FirstPage(e.rec) + z == fp
      {
        PageUnique(m, ino, log, 0, x, y, z, a, t, j);
      }
      forall z | 0 <= z < |e.pages| && FirstPage(e.rec) + z == fp
        ensures Lookup(index, fp) != Some(e.pages[z])
      {
        if e.pages[z] == log[k].ents[s].pages[i] {
          PageUnique(m, ino, log, 0, x, y, z, k, s, i);
        }
      }
      MarksInstallOther(e, index, pend, fp, q);
    }
  }

  lemma InstallOver(m: Mem, ino: nat, log: seq<LogPage>, index: map<nat, int>, pend: set<int>, fp: nat, q: int, a: nat, t: nat, j: nat,
                    k: nat, s: nat, i: nat)
    requires LogOk(m, ino, log, 0) && MarksAll(log, index, pend) && q in pend
    requires a < |log| && t < |log[a].ents| && j < |log[a].ents[t].pages|
    requires log[a].ents[t].pages[j] == q && FirstPage(log[a].ents[t].rec) + j == fp
    requires k < |log| && s < |log[k].ents| && i < |log[k].ents[s].pages|
    requires FirstPage(log[k].ents[s].rec) + i == fp && Lookup(index, fp) == Some(log[k].ents[s].pages[i])
    requires log[k].ents[s].pages[i] !in pend
    ensures i !in log[k].ents[s].dead
    ensures MarksAll(MarkLog(log, k, s, i), index[fp := q], pend - {q})
  {
    hide LogOk, MarksOk, MarkEnt;
    assert MarksOk(log[k].ents[s], index, pend);
    MarkedAt(log[k].ents[s], index, pend, i);
    forall x, y | 0 <= x < |log| && 0 <= y < |log[x].ents|
      ensures x == k && y == s ==> MarksOk(MarkEnt(log[x].ents[y], i), index[fp := q], pend - {q})
      ensures !(x == k && y == s) ==> MarksOk(log[x].ents[y], index[fp := q], pend - {q})
    {
      InstallOverAt(m, ino, log, index, pend, fp, q, a, t, j, k, s, i, x, y);
    }
  }

  /** What the index gives comes from an entry. */
  lemma IndexedEntry(log: seq<LogPage>, spans: seq<Span>, index: map<nat, int>, fp: nat) returns (k: nat, s: nat, i: nat)
    requires spans <= LogSpans(log) && Cover(spans, fp) == Lookup(index, fp) && fp in index
    ensures k < |log| && s < |log[k].ents| && i < |log[k].ents[s].pages|
    ensures FirstPage(log[k].ents[s].rec) + i == fp && log[k].ents[s].pages[i] == index[fp]
    ensures Flat(log, k) + s < |spans|
  {
    var n := CoverWitness(spans, fp);
    k, s := EntryOf(log, n);
    i := fp - FirstPage(log[k].ents[s].rec);
  }

  // ------------------------------------------------------- consecutive new spans

  /** The spans `l` give file pages `first`, `first + 1`, ... the pages `pages`, in
      order. */
  ghost predicate Tiles(l: seq<Span>, first: nat, pages: seq<int>) {
    if l == [] then pages == []
    else
      var e := l[|l| - 1];
      && |e.pages| <= |pages|
      && e.first == first + |pages| - |e.pages|
      && e.pages == pages[|pages| - |e.pages|..]
      && Tiles(l[..|l| - 1], first, pages[..|pages| - |e.pages|])
  }

  lemma TilesPush(l: seq<Span>, first: nat, pages: seq<int>, e: Span)
    requires Tiles(l, first, pages) && e.first == first + |pages|
    ensures Tiles(l + [e], first, pages + e.pages)
  {
    assert (l + [e])[..|l|] == l;
    assert (pages + e.pages)[..|pages|] == pages;
  }

  lemma {:induction false} TilesCover(l: seq<Span>, first: nat, pages: seq<int>, fp: nat)
    requires Tiles(l, first, pages)
    ensures Cover(l, fp) == if first <= fp < first + |pages| then Some(pages[fp - first]) else None
  {
    if l != [] {
      var e := l[|l| - 1];
      TilesCover(l[..|l| - 1], first, pages[..|pages| - |e.pages|], fp);
    }
  }

  /** The pages of the first `n` spans. */
  function SpanPages(l: seq<Span>, n: nat): nat
    requires n <= |l|
  {
    if n == 0 then 0 else SpanPages(l, n - 1) + |l[n - 1].pages|
  }

  lemma {:induction false} SpanPagesPrefix(l: seq<Span>, l': seq<Span>, n: nat)
    requires n <= |l'| && l' <= l
    ensures SpanPages(l', n) == SpanPages(l, n)
  {
    if n > 0 {
      SpanPagesPrefix(l, l', n - 1);
    }
  }

  lemma {:induction false} TilesAt(l: seq<Span>, first: nat, pages: seq<int>, n: nat)
    requires Tiles(l, first, pages) && n <= |l|
    ensures SpanPages(l, |l|) == |pages|
    ensures n < |l| ==>
              var o := SpanPages(l, n);
              o + |l[n].pages| <= |pages| && l[n].first == first + o && l[n].pages == pages[o..o + |l[n].pages|]
  {
    if l != [] {
      var m := |l| - 1;
      var e := l[m];
      var rest := pages[..|pages| - |e.pages|];
      TilesAt(l[..m], first, rest, if n < m then n else m);
      SpanPagesPrefix(l, l[..m], m);
      if n < m {
        SpanPagesPrefix(l, l[..m], n);
      }
    }
  }

  /** The index once the first `cur` new pages are in it. */
  ghost predicate Installed(index0: map<nat, int>, index: map<nat, int>, first: nat, pages: seq<int>, cur: nat) {
    && cur <= |pages|
    && forall fp: nat :: Lookup(index, fp) == if first <= fp < first + cur then Some(pages[fp - first]) else Lookup(index0, fp)
  }

  /** Once all new pages are indexed, the index is the replay of the whole log. */
  lemma InstalledReplays(before: seq<Span>, added: seq<Span>, index0: map<nat, int>, index: map<nat, int>, first: nat, pages: seq<int>)
    requires Replays(before, index0) && Tiles(added, first, pages) && Installed(index0, index, first, pages, |pages|)
    ensures Replays(before + added, index)
  {
    forall fp: nat
      ensures Cover(before + added, fp) == Lookup(index, fp)
    {
      CoverConcat(before, added, fp);
      TilesCover(added, first, pages, fp);
      assert Cover(before, fp) == Lookup(index0, fp);
    }
  }

  // ------------------------------------------------------------------ extension

  /** `log` is `log0` with entries appended after its end. */
  ghost predicate Extends(log0: seq<LogPage>, log: seq<LogPage>) {
    && 0 < |log0| <= |log|
    && log[..|log0| - 1] == log0[..|log0| - 1]
    && log[|log0| - 1].id == Last(log0).id
    && Last(log0).ents <= log[|log0| - 1].ents
  }

  /** The entries of `log0` are still there, in the same places, some perhaps marked. */
  ghost predicate Grown(log0: seq<LogPage>, log: seq<LogPage>) {
    |Entries(log0)| <= |Entries(log)| && forall n | 0 <= n < |Entries(log0)| :: SameEntry(Entries(log0)[n], Entries(log)[n])
  }

  lemma ExtendsEntries(log0: seq<LogPage>, log: seq<LogPage>)
    requires Extends(log0, log)
    ensures |Entries(log0)| <= |Entries(log)| && Entries(log)[..|Entries(log0)|] == Entries(log0)
  {
    hide Entries;
    var n := |log0| - 1;
    var before, rest := log0[..n], log[n + 1..];
    assert log == before + [log[n]] + rest && log0 == before + [Last(log0)];
    EntriesConcat(before + [log[n]], rest);
    EntriesLast(before, log[n]);
    EntriesLast(before, Last(log0));
  }

  // --------------------------------------------------------- replaying new entries

  /** The same entry, whatever is marked. */
  predicate SameEntry(e: Ent, e': Ent) {
    e'.pages == e.pages && e'.rec == e.rec.(bitmap := e'.rec.bitmap, invalidPages := e'.rec.invalidPages)
  }

  /** The same entries at the same places. */
  ghost predicate SameShape(log: seq<LogPage>, log': seq<LogPage>) {
    && |log'| == |log|
    && forall k | 0 <= k < |log| ::
         && log'[k].id == log[k].id && |log'[k].ents| == |log[k].ents|
         && forall s | 0 <= s < |log[k].ents| ::
              SameEntry(log[k].ents[s], log'[k].ents[s])
  }

  lemma MarkShape(log: seq<LogPage>, k: nat, s: nat, i: nat)
    requires k < |log| && s < |log[k].ents|
    ensures SameShape(log, MarkLog(log, k, s, i))
  {
  }

  lemma ShapeTrans(a: seq<LogPage>, b: seq<LogPage>, c: seq<LogPage>)
    requires SameShape(a, b) && SameShape(b, c)
    ensures SameShape(a, c)
  {
  }

  lemma {:induction false} ShapeSpans(log: seq<LogPage>, log': seq<LogPage>)
    requires SameShape(log, log')
    ensures LogSpans(log') == LogSpans(log)
  {
    if log != [] {
      var n := |log| - 1;
      ShapeSpans(log[..n], log'[..n]);
      assert EntSpans(log'[n].ents) == EntSpans(log[n].ents);
    }
  }

  lemma {:induction false} ShapeEntries(log: seq<LogPage>, log': seq<LogPage>)
    requires SameShape(log, log')
    ensures |Entries(log')| == |Entries(log)|
    ensures forall n | 0 <= n < |Entries(log)| :: SameEntry(Entries(log)[n], Entries(log')[n])
  {
    if log != [] {
      hide SameEntry;
      var n := |log| - 1;
      ShapeEntries(log[..n], log'[..n]);
    }
  }

  lemma ShapeFlat(log: seq<LogPage>, log': seq<LogPage>, k: nat)
    requires SameShape(log, log') && k <= |log|
    ensures Flat(log', k) == Flat(log, k)
  {
    ShapeSpans(log[..k], log'[..k]);
  }

  lemma ShapeBacks(back: seq<Pos>, log: seq<LogPage>, log': seq<LogPage>)
    requires SameShape(log, log') && BacksOk(back, log)
    ensures BacksOk(back, log')
  {
    forall k, s | 0 <= k < |log'| && 0 <= s < |log'[k].ents|
      ensures BackOk(back, Pos(log'[k].id, s), log'[k].ents[s])
    {
      assert BackOk(back, Pos(log[k].id, s), log[k].ents[s]);
    }
  }

  /** A replay in progress: the spans `before` are indexed, and of the new pages `newPages`
      for file pages `first`, `first + 1`, ... the first `cur` are. */
  datatype Replay = Replay(before: seq<Span>, index0: map<nat, int>, first: nat, newPages: seq<int>)

  ghost function Pend(newPages: seq<int>, cur: nat): set<int>
    requires cur <= |newPages|
  {
    set p | p in newPages[cur..]
  }

  ghost predicate ReplayOk(r: Replay, m: Mem, ino: nat, log: seq<LogPage>, index: map<nat, int>, cur: nat) {
    && LogOk(m, ino, log, 0) && BacksOk(m.back, log)
    && r.before <= LogSpans(log) && Replays(r.before, r.index0)
    && NoDup(r.newPages) && (forall fp | fp in r.index0 :: r.index0[fp] !in r.newPages)
    && Installed(r.index0, index, r.first, r.newPages, cur)
    && MarksAll(log, index, Pend(r.newPages, cur))
  }

  /** The next new page is position `j` of entry `(a, t)`. */
  ghost predicate NewAt(r: Replay, log: seq<LogPage>, cur: nat, a: nat, t: nat, j: nat) {
    && cur < |r.newPages|
    && a < |log| && t < |log[a].ents| && j < |log[a].ents[t].pages|
    && log[a].ents[t].pages[j] == r.newPages[cur] && FirstPage(log[a].ents[t].rec) + j == r.first + cur
  }

  /** The page it replaces is the live position `i` of entry `(k, s)`. */
  ghost predicate PriorAt(r: Replay, log: seq<LogPage>, index: map<nat, int>, cur: nat, k: nat, s: nat, i: nat) {
    && cur < |r.newPages|
    && k < |log| && s < |log[k].ents| && i < |log[k].ents[s].pages| && i !in log[k].ents[s].dead
    && FirstPage(log[k].ents[s].rec) + i == r.first + cur && Lookup(index, r.first + cur) == Some(log[k].ents[s].pages[i])
    && log[k].ents[s].pages[i] !in Pend(r.newPages, cur)
  }

  /** The entry's pages are the new pages from `cur` on. */
  ghost predicate EntryAt(r: Replay, e: Ent, cur: nat) {
    && cur + |e.pages| <= |r.newPages| && FirstPage(e.rec) == r.first + cur
    && e.pages == r.newPages[cur..cur + |e.pages|]
  }

  /** The walk over the new entries has come to slot `slot` of log page `k`, with `cur`
      pages indexed. */
  ghost predicate WalkAt(r: Replay, log: seq<LogPage>, pos: Pos, k: nat, cur: nat) {
    && k < |log| && pos.page == log[k].id && pos.slot <= |log[k].ents|
    && |r.before| <= Flat(log, k) + pos.slot <= |LogSpans(log)|
    && cur == SpanPages(LogSpans(log)[|r.before|..], Flat(log, k) + pos.slot - |r.before|)
    && Tiles(LogSpans(log)[|r.before|..], r.first, r.newPages)
  }

  /** All log pages but the last are full, and the header names the next one. */
  lemma NextLink(m: Mem, ino: nat, log: seq<LogPage>, k: nat)
    requires LogOk(m, ino, log, 0) && k < |log|
    ensures 0 <= log[k].id < |m.next| && log != [] && |log[k].ents| <= SLOTS
    ensures k + 1 < |log| ==> m.next[log[k].id] == log[k + 1].id && |log[k].ents| == SLOTS
  {
    hide EntOk;
    assert Ids(log)[k] == log[k].id;
    if k + 1 < |log| {
      assert Ids(log)[k + 1] == log[k + 1].id;
    }
  }

  /** `next_log_page` leads to the next page of the log. */
  lemma WalkPage(r: Replay, m: Mem, ino: nat, log: seq<LogPage>, pos: Pos, k: nat, cur: nat)
    requires LogOk(m, ino, log, 0) && WalkAt(r, log, pos, k, cur)
    requires pos.slot == SLOTS && pos != EndPos(log)
    ensures k + 1 < |log| && 0 <= pos.page < |m.next| && m.next[pos.page] == log[k + 1].id
    ensures WalkAt(r, log, Pos(log[k + 1].id, 0), k + 1, cur)
  {
    hide Tiles, LogSpans, SpanPages, PageOk, LogOk;
    LogIds(m, ino, log, 0);
    NextLink(m, ino, log, k);
    FlatNext(log, k);
  }

  lemma WalkEntry(r: Replay, m: Mem, ino: nat, log: seq<LogPage>, pos: Pos, k: nat, cur: nat)
    requires LogOk(m, ino, log, 0) && WalkAt(r, log, pos, k, cur)
    requires pos.slot != SLOTS && pos != EndPos(log)
    ensures k < |log| && pos.slot < |log[k].ents| && pos == Pos(log[k].id, pos.slot)
    ensures EntryAt(r, log[k].ents[pos.slot], cur)
  {
    hide Tiles, LogSpans;
    SpanAt(log, k, pos.slot);
    TilesAt(LogSpans(log)[|r.before|..], r.first, r.newPages, Flat(log, k) + pos.slot - |r.before|);
  }

  lemma WalkOn(r: Replay, log: seq<LogPage>, log': seq<LogPage>, pos: Pos, k: nat, cur: nat)
    requires WalkAt(r, log, pos, k, cur) && pos.slot < |log[k].ents| && SameShape(log, log')
    ensures WalkAt(r, log', Pos(pos.page, pos.slot + 1), k, cur + |log[k].ents[pos.slot].pages|)
  {
    hide Tiles, LogSpans;
    SpanAt(log, k, pos.slot);
    ShapeSpans(log, log');
    ShapeFlat(log, log', k);
  }

  lemma WalkEnd(r: Replay, m: Mem, ino: nat, log: seq<LogPage>, pos: Pos, k: nat, cur: nat)
    requires LogOk(m, ino, log, 0) && WalkAt(r, log, pos, k, cur) && pos == EndPos(log)
    ensures cur == |r.newPages|
  {
    hide Tiles, LogSpans;
    LogIds(m, ino, log, 0);
    FlatNext(log, k);
    FlatAll(log);
    TilesAt(LogSpans(log)[|r.before|..], r.first, r.newPages, 0);
  }

  lemma PriorFacts(r: Replay, log: seq<LogPage>, index: map<nat, int>, cur: nat, k: nat, s: nat, i: nat)
    requires PriorAt(r, log, index, cur, k, s, i)
    ensures k < |log| && s < |log[k].ents| && i < |log[k].ents[s].pages| && i !in log[k].ents[s].dead
    ensures FirstPage(log[k].ents[s].rec) + i == r.first + cur
  {
  }

  lemma ReplayLog(r: Replay, m: Mem, ino: nat, log: seq<LogPage>, index: map<nat, int>, cur: nat)
    requires ReplayOk(r, m, ino, log, index, cur)
    ensures LogOk(m, ino, log, 0)
  {
  }

  lemma PendStep(newPages: seq<int>, cur: nat)
    requires NoDup(newPages) && cur < |newPages|
    ensures newPages[cur] in Pend(newPages, cur)
    ensures Pend(newPages, cur + 1) == Pend(newPages, cur) - {newPages[cur]}
  {
    assert newPages[cur..] == [newPages[cur]] + newPages[cur + 1..];
    forall i | cur + 1 <= i < |newPages| ensures newPages[i] != newPages[cur] {
    }
  }

  lemma InstalledStep(r: Replay, index: map<nat, int>, cur: nat)
    requires Installed(r.index0, index, r.first, r.newPages, cur) && cur < |r.newPages|
    ensures Installed(r.index0, index[r.first + cur := r.newPages[cur]], r.first, r.newPages, cur + 1)
  {
    var index' := index[r.first + cur := r.newPages[cur]];
    forall fp: nat
      ensures Lookup(index', fp) == if r.first <= fp < r.first + cur + 1 then Some(r.newPages[fp - r.first]) else Lookup(r.index0, fp)
    {
      assert Lookup(index, fp) == if r.first <= fp < r.first + cur then Some(r.newPages[fp - r.first]) else Lookup(r.index0, fp);
    }
  }

  /** The next file page of a replay has no page yet: the index alone changes. */
  lemma ReplayNew(r: Replay, m: Mem, ino: nat, log: seq<LogPage>, index: map<nat, int>, cur: nat, a: nat, t: nat, j: nat)
    requires ReplayOk(r, m, ino, log, index, cur) && NewAt(r, log, cur, a, t, j) && r.first + cur !in index
    ensures ReplayOk(r, m, ino, log, index[r.first + cur := r.newPages[cur]], cur + 1)
  {
    PendStep(r.newPages, cur);
    InstalledStep(r, index, cur);
    InstallNew(m, ino, log, index, Pend(r.newPages, cur), r.first + cur, r.newPages[cur], a, t, j);
  }

  /** Where the page to be replaced is. */
  lemma ReplayFinds(r: Replay, m: Mem, ino: nat, log: seq<LogPage>, index: map<nat, int>, cur: nat)
    returns (k: nat, s: nat, i: nat)
    requires ReplayOk(r, m, ino, log, index, cur) && cur < |r.newPages| && r.first + cur in index
    ensures PriorAt(r, log, index, cur, k, s, i)
    ensures 0 <= index[r.first + cur] < |m.back| && m.back[index[r.first + cur]] == Pos(log[k].id, s)
  {
    hide LogOk, LogSpans, NoDup, Cover, MarksOk, BackOk;
    var fp := r.first + cur;
    assert Lookup(index, fp) == Lookup(r.index0, fp) == Cover(r.before, fp);
    assert fp in r.index0 && index[fp] == r.index0[fp];
    k, s, i := IndexedEntry(log, r.before, r.index0, fp);
    assert BackOk(m.back, Pos(log[k].id, s), log[k].ents[s]);
    BackAt(m.back, Pos(log[k].id, s), log[k].ents[s], i);
    assert MarksOk(log[k].ents[s], index, Pend(r.newPages, cur));
    MarkedAt(log[k].ents[s], index, Pend(r.newPages, cur), i);
  }

  lemma BackAt(back: seq<Pos>, pos: Pos, e: Ent, i: nat)
    requires BackOk(back, pos, e) && i < |e.pages|
    ensures 0 <= e.pages[i] < |back| && back[e.pages[i]] == pos
  {
  }

  lemma MarkedAt(e: Ent, index: map<nat, int>, pend: set<int>, i: nat)
    requires MarksOk(e, index, pend) && i < |e.pages|
    ensures i in e.dead <==> e.pages[i] !in pend && Lookup(index, FirstPage(e.rec) + i) != Some(e.pages[i])
  {
  }

  /** The next file page has a page: its entry is marked, then the index changes. */
  lemma ReplayOver(r: Replay, m: Mem, m': Mem, ino: nat, log: seq<LogPage>, index: map<nat, int>, cur: nat, a: nat, t: nat, j: nat,
                   k: nat, s: nat, i: nat)
    requires ReplayOk(r, m, ino, log, index, cur) && NewAt(r, log, cur, a, t, j) && PriorAt(r, log, index, cur, k, s, i)
    requires LogOk(m', ino, MarkLog(log, k, s, i), 0) && m'.back == m.back
    ensures ReplayOk(r, m', ino, MarkLog(log, k, s, i), index[r.first + cur := r.newPages[cur]], cur + 1)
    ensures SameShape(log, MarkLog(log, k, s, i))
  {
    hide LogOk, NoDup, MarkLog, Replays, Installed, MarksAll;
    PendStep(r.newPages, cur);
    InstalledStep(r, index, cur);
    InstallOver(m, ino, log, index, Pend(r.newPages, cur), r.first + cur, r.newPages[cur], a, t, j, k, s, i);
    MarkShape(log, k, s, i);
    ShapeSpans(log, MarkLog(log, k, s, i));
    ShapeBacks(m.back, log, MarkLog(log, k, s, i));
  }
}
