/** The region while a log page is being collected (src/gc.c:47-115). */
module GcSteps {
  import opened Chains
  import opened PageLists
  import opened Layout
  import opened Bitmap
  import opened LogModel
  import opened Region
  import opened LogStore
  import opened LogMeaning
  import opened WriteSteps

  /** Entries `i`, `i + 1`, ... of the unlinked log page `blk` are still to be
      collected. */
  ghost predicate BlockAt(m: Mem, ino: nat, blk: LogPage, i: nat) {
    && MemOk(m) && 0 <= blk.id < |m.own| && |blk.ents| <= SLOTS
    && m.own[blk.id] == Held(Use(ino, Loose)) && m.next[blk.id] == NIL && m.hdr[blk.id] == CountersOf(blk.ents)
    && (forall s | 0 <= s < |blk.ents| :: m.slot[blk.id][s] == blk.ents[s].rec)
    && (forall s | i <= s < |blk.ents| :: EntAs(m, ino, Pending(Pos(blk.id, s)), m.slot[blk.id][s], blk.ents[s]))
  }

  /** A piece of the chain of the entry being collected. */
  ghost predicate RestAt(m: Mem, ino: nat, pos: Pos, rest: seq<int>) {
    && MemOk(m) && Linked(m.next, rest)
    && (forall x | 0 <= x < |rest| :: m.own[rest[x]] == Held(Use(ino, Pending(pos))))
  }

  /** The pages to be freed so far. */
  ghost predicate FreeChain(m: Mem, ino: nat, id: int, fc: seq<int>) {
    && MemOk(m) && Linked(m.next, fc)
    && (forall x | 0 <= x < |fc| :: m.own[fc[x]] == Held(Use(ino, Loose)) && fc[x] != id)
  }

  /** Pages of the collected log page that are in no entry of the log. */
  ghost function Extra(blk: LogPage, i: nat, rest: seq<int>, fc: seq<int>): set<int>
    requires i <= |blk.ents|
  {
    {blk.id} + (set p | p in fc) + (set p | p in rest) + (set p | p in PagesOf(blk.ents[i..]))
  }

  /** Between two entries. */
  ghost predicate GcBetween(m: Mem, ino: nat, log: seq<LogPage>, blk: LogPage, i: nat, fc: seq<int>) {
    && i <= |blk.ents| && log != [] && LogOk(m, ino, log, 0) && BlockAt(m, ino, blk, i) && FreeChain(m, ino, blk.id, fc)
    && NoLeak(m.own, ino, log, Extra(blk, i, [], fc))
  }

  /** Inside entry `i`, with the part `rest` of its chain left. */
  ghost predicate GcAt(m: Mem, ino: nat, log: seq<LogPage>, blk: LogPage, i: nat, rest: seq<int>, fc: seq<int>) {
    && i < |blk.ents| && log != [] && LogOk(m, ino, log, 0) && BlockAt(m, ino, blk, i + 1) && FreeChain(m, ino, blk.id, fc)
    && RestAt(m, ino, Pos(blk.id, i), rest)
    && NoLeak(m.own, ino, log, Extra(blk, i + 1, rest, fc))
  }

  /** A run has been cut off the chain: `run` before the cut, `rest` after it. */
  ghost predicate GcCut(m: Mem, ino: nat, log: seq<LogPage>, blk: LogPage, i: nat, run: seq<int>, rest: seq<int>, fc: seq<int>) {
    && i < |blk.ents| && log != [] && LogOk(m, ino, log, 0) && BlockAt(m, ino, blk, i + 1) && FreeChain(m, ino, blk.id, fc)
    && RestAt(m, ino, Pos(blk.id, i), run) && RestAt(m, ino, Pos(blk.id, i), rest)
    && run != [] && NoDup(run + rest)
    && NoLeak(m.own, ino, log, Extra(blk, i + 1, run + rest, fc))
  }

  /** Pages of other inodes keep everything, and no page becomes another inode's. */
  ghost predicate OthersKept(m: Mem, m': Mem, ino: nat) {
    && MemOk(m) && MemOk(m') && |m'.next| == |m.next|
    && (forall p | 0 <= p < |m.own| && m.own[p].Held? && m.own[p].holder.ino != ino ::
          && m'.own[p] == m.own[p] && m'.next[p] == m.next[p] && m'.hdr[p] == m.hdr[p]
          && m'.back[p] == m.back[p] && m'.bytes[p] == m.bytes[p] && m'.slot[p] == m.slot[p])
    && (forall p | 0 <= p < |m.own| && m'.own[p].Held? && m'.own[p].holder.ino != ino :: m.own[p] == m'.own[p])
  }

  lemma OthersKeptTrans(a: Mem, b: Mem, c: Mem, ino: nat)
    requires OthersKept(a, b, ino) && OthersKept(b, c, ino)
    ensures OthersKept(a, c, ino)
  {
  }

  lemma HeldKeptOthers(m: Mem, m': Mem, ino: nat)
    requires HeldKept(m, m', ino)
    ensures OthersKept(m, m', ino)
  {
  }

  // ------------------------------------------------------------------- frames

  /** What is left of the collected page does not mind changes to log pages and to the
      run just cut off. */
  lemma GcFrame(m: Mem, m': Mem, ino: nat, blk: LogPage, i: nat, run: seq<int>, rest: seq<int>, fc: seq<int>)
    requires BlockAt(m, ino, blk, i + 1) && FreeChain(m, ino, blk.id, fc) && RestAt(m, ino, Pos(blk.id, i), rest)
    requires RestAt(m, ino, Pos(blk.id, i), run) && NoDup(run + rest)
    requires MemOk(m') && |m'.next| == |m.next|
    requires forall p | 0 <= p < |m.own| && m.own[p].Held? && p !in run && m.own[p] != Held(Use(ino, LogRole)) ::
               m'.own[p] == m.own[p] && m'.next[p] == m.next[p] && m'.slot[p] == m.slot[p] && m'.hdr[p] == m.hdr[p]
    ensures BlockAt(m', ino, blk, i + 1) && FreeChain(m', ino, blk.id, fc) && RestAt(m', ino, Pos(blk.id, i), rest)
  {
    hide EntAs, Linked, NoDup;
    RestApart(run, rest);
    RestRoles(m, ino, Pos(blk.id, i), run);
    RestRoles(m, ino, Pos(blk.id, i), rest);
    BlockFrame(m, m', ino, blk, i);
    FreeFrame(m, m', ino, blk.id, fc);
    RestFrame(m, m', ino, Pos(blk.id, i), rest);
  }

  lemma RestRoles(m: Mem, ino: nat, pos: Pos, rest: seq<int>)
    requires RestAt(m, ino, pos, rest)
    ensures forall p | p in rest :: 0 <= p < |m.own| && m.own[p] == Held(Use(ino, Pending(pos)))
    ensures forall x | 0 <= x < |rest| :: 0 <= rest[x] < |m.own| && m.own[rest[x]] == Held(Use(ino, Pending(pos)))
  {
  }

  lemma RestApart(run: seq<int>, rest: seq<int>)
    requires NoDup(run + rest)
    ensures forall x | 0 <= x < |rest| :: rest[x] !in run
    ensures NoDup(rest)
  {
    var u := run + rest;
    forall x, y | 0 <= x < |rest| && 0 <= y < |run| ensures rest[x] != run[y] {
      assert u[|run| + x] != u[y];
    }
    forall x, y | 0 <= x < y < |rest| ensures rest[x] != rest[y] {
      assert u[|run| + x] != u[|run| + y];
    }
  }

  /** The entries after `i` do not mind changes to pages that are not theirs. */
  lemma BlockFrame(m: Mem, m': Mem, ino: nat, blk: LogPage, i: nat)
    requires BlockAt(m, ino, blk, i + 1) && MemOk(m') && |m'.next| == |m.next|
    requires m'.own[blk.id] == m.own[blk.id] && m'.next[blk.id] == m.next[blk.id] && m'.slot[blk.id] == m.slot[blk.id]
    requires m'.hdr[blk.id] == m.hdr[blk.id]
    requires forall p | 0 <= p < |m.own| && IsPending(m.own[p], ino) && m.own[p].holder.role.pos != Pos(blk.id, i) ::
               m'.own[p] == m.own[p] && m'.next[p] == m.next[p]
    ensures BlockAt(m', ino, blk, i + 1)
  {
    hide EntAs;
    forall s | i + 1 <= s < |blk.ents|
      ensures EntAs(m', ino, Pending(Pos(blk.id, s)), m'.slot[blk.id][s], blk.ents[s])
    {
      EntAsFrame(m, m', ino, Pending(Pos(blk.id, s)), m.slot[blk.id][s], blk.ents[s]);
    }
  }

  predicate IsPending(o: Owner<Use>, ino: nat) {
    o.Held? && o.holder.ino == ino && o.holder.role.Pending?
  }

  lemma RestFrame(m: Mem, m': Mem, ino: nat, pos: Pos, rest: seq<int>)
    requires RestAt(m, ino, pos, rest) && MemOk(m') && |m'.next| == |m.next|
    requires forall x | 0 <= x < |rest| :: m'.own[rest[x]] == m.own[rest[x]] && m'.next[rest[x]] == m.next[rest[x]]
    ensures RestAt(m', ino, pos, rest)
  {
    LinkedFrame(m.next, m'.next, rest);
  }

  lemma EntAsFrame(m: Mem, m': Mem, ino: nat, role: Role, rec: Entry, e: Ent)
    requires MemOk(m) && MemOk(m') && |m'.next| == |m.next| && EntAs(m, ino, role, rec, e)
    requires forall p | 0 <= p < |m.own| && m.own[p] == Held(Use(ino, role)) :: m'.own[p] == m.own[p] && m'.next[p] == m.next[p]
    ensures EntAs(m', ino, role, rec, e)
  {
    LinkedFrame(m.next, m'.next, e.pages);
  }

  // ------------------------------------------------------------------ the steps

  lemma GcNext(m: Mem, ino: nat, log: seq<LogPage>, blk: LogPage, i: nat, fc: seq<int>)
    requires GcBetween(m, ino, log, blk, i, fc) && i < |blk.ents|
    ensures var e := blk.ents[i];
      && GcAt(m, ino, log, blk, i, e.pages, fc)
      && 0 <= blk.id < |m.slot| && i < |m.slot[blk.id]| && m.slot[blk.id][i] == e.rec
      && e.pages != [] && e.rec.numPages == |e.pages| && e.rec.data == e.pages[0]
      && e.rec.startOff == FirstPage(e.rec) * PAGE_SIZE && Represents(e.rec.bitmap, e.dead)
      && |e.pages| <= MAX_PAGES
  {
    hide LogOk, NoLeak, Linked;
    assert EntAs(m, ino, Pending(Pos(blk.id, i)), m.slot[blk.id][i], blk.ents[i]);
    assert blk.ents[i..] == [blk.ents[i]] + blk.ents[i + 1..];
    assert Extra(blk, i, [], fc) == Extra(blk, i + 1, blk.ents[i].pages, fc);
  }

  lemma GcEntryDone(m: Mem, ino: nat, log: seq<LogPage>, blk: LogPage, i: nat, fc: seq<int>)
    requires GcAt(m, ino, log, blk, i, [], fc)
    ensures GcBetween(m, ino, log, blk, i + 1, fc)
  {
  }

  /** Cutting the chain behind its first `k` pages. */
  lemma GcCutStep(m: Mem, m': Mem, ino: nat, log: seq<LogPage>, blk: LogPage, i: nat, rest: seq<int>, k: nat, fc: seq<int>)
    requires GcAt(m, ino, log, blk, i, rest, fc) && 0 < k <= |rest| && 0 <= rest[k - 1] < |m.next|
    requires m' == m.(next := m.next[rest[k - 1] := NIL])
    ensures GcCut(m', ino, log, blk, i, rest[..k], rest[k..], fc)
    ensures m.next[rest[k - 1]] == First(rest[k..])
    ensures OthersKept(m, m', ino) && MemOk(m')
  {
    hide LogOk, BlockAt, RestAt, FreeChain, NoLeak, Linked, NoDup, Extra;
    GcAtMem(m, ino, log, blk, i, rest, fc);
    RestCut(m, m', ino, Pos(blk.id, i), rest, k);
    assert rest[..k] + rest[k..] == rest;
    LogFrame(m, m', ino, log, 0);
    BlockId(m, ino, blk, i + 1);
    BlockFrame(m, m', ino, blk, i);
    FreeFrame(m, m', ino, blk.id, fc);
  }

  lemma GcAtMem(m: Mem, ino: nat, log: seq<LogPage>, blk: LogPage, i: nat, rest: seq<int>, fc: seq<int>)
    requires GcAt(m, ino, log, blk, i, rest, fc)
    ensures MemOk(m)
    ensures forall x | 0 <= x < |rest| :: 0 <= rest[x] < |m.own| && m.own[rest[x]] == Held(Use(ino, Pending(Pos(blk.id, i))))
    ensures forall x | 0 <= x < |rest| :: rest[x] in rest
  {
  }

  lemma RestCut(m: Mem, m': Mem, ino: nat, pos: Pos, rest: seq<int>, k: nat)
    requires RestAt(m, ino, pos, rest) && 0 < k <= |rest| && 0 <= rest[k - 1] < |m.next|
    requires m' == m.(next := m.next[rest[k - 1] := NIL])
    ensures RestAt(m', ino, pos, rest[..k]) && RestAt(m', ino, pos, rest[k..])
    ensures m.next[rest[k - 1]] == First(rest[k..]) && NoDup(rest)
  {
    LinkedCut(m.next, rest, k, m'.next);
    LinkedNoDup(m.next, rest);
  }

  lemma FreeFrame(m: Mem, m': Mem, ino: nat, id: int, fc: seq<int>)
    requires FreeChain(m, ino, id, fc) && MemOk(m') && |m'.next| == |m.next|
    requires forall p | 0 <= p < |m.own| && m.own[p] == Held(Use(ino, Loose)) :: m'.own[p] == m.own[p] && m'.next[p] == m.next[p]
    ensures FreeChain(m', ino, id, fc)
  {
    LinkedFrame(m.next, m'.next, fc);
  }

  lemma BlockId(m: Mem, ino: nat, blk: LogPage, i: nat)
    requires BlockAt(m, ino, blk, i)
    ensures 0 <= blk.id < |m.own| && m.own[blk.id] == Held(Use(ino, Loose)) && MemOk(m) && m.next[blk.id] == NIL
  {
  }

  // --------------------------------------------------------------- appending a run

  /** What appending the run `e.pages` to the log does to the region. */
  ghost predicate RunAppended(m: Mem, m': Mem, ino: nat, log: seq<LogPage>, pg: seq<LogPage>, e: Ent) {
    && MemOk(m) && MemOk(m') && |m'.next| == |m.next| && log != []
    && |pg| <= 1
    && (pg != [] ==> pg[0].ents == [] && 0 <= pg[0].id < |m.own| && m.own[pg[0].id].Free?
                     && m'.own[pg[0].id] == Held(Use(ino, LogRole)))
    && (forall p | 0 <= p < |m.own| && p in e.pages :: m'.own[p] == Held(Use(ino, DataRole(EndPos(log + pg)))))
    && (forall p | 0 <= p < |m.own| && m.own[p].Held? && p !in e.pages :: m'.own[p] == m.own[p])
    && (forall p | 0 <= p < |m.own| && m.own[p].Held? && p !in e.pages && m.own[p] != Held(Use(ino, LogRole)) ::
          m'.next[p] == m.next[p] && m'.slot[p] == m.slot[p] && m'.hdr[p] == m.hdr[p])
    && (forall p | 0 <= p < |m.own| && m.own[p].Free? && m'.own[p].Held? :: pg != [] && p == pg[0].id)
  }

  lemma RunNoLeak(m: Mem, m': Mem, ino: nat, log: seq<LogPage>, pg: seq<LogPage>, e: Ent, blk: LogPage, i: nat, rest: seq<int>, fc: seq<int>)
    requires RunAppended(m, m', ino, log, pg, e) && i <= |blk.ents|
    requires NoLeak(m.own, ino, log, Extra(blk, i, e.pages + rest, fc))
    requires forall p | p in e.pages :: 0 <= p < |m.own| && m.own[p].Held?
    ensures NoLeak(m'.own, ino, Append(log + pg, e), Extra(blk, i, rest, fc))
  {
    hide Append, EndPos, InEntry, Ids;
    AppendIds(log, pg, e);
    var log' := Append(log + pg, e);
    forall p | 0 <= p < |m'.own| && m'.own[p].Held? && m'.own[p].holder.ino == ino
      ensures Accounted(m'.own[p].holder.role, p, log', Extra(blk, i, rest, fc))
    {
      if m'.own[p].holder.role.DataRole? {
        AppendInEntry(log, pg, e, p, m'.own[p].holder.role.pos);
      }
      if m.own[p].Held? && p !in e.pages {
        assert Accounted(m.own[p].holder.role, p, log, Extra(blk, i, e.pages + rest, fc));
      }
    }
  }

  lemma GcAppendStep(m: Mem, m': Mem, ino: nat, log: seq<LogPage>, pg: seq<LogPage>, e: Ent, blk: LogPage, i: nat, rest: seq<int>, fc: seq<int>)
    requires GcCut(m, ino, log, blk, i, e.pages, rest, fc) && RunAppended(m, m', ino, log, pg, e)
    requires LogOk(m', ino, Append(log + pg, e), 0)
    ensures GcAt(m', ino, Append(log + pg, e), blk, i, rest, fc)
  {
    hide LogOk, BlockAt, RestAt, FreeChain, NoLeak, NoDup, Extra, EndPos;
    RestRoles(m, ino, Pos(blk.id, i), e.pages);
    GcFrame(m, m', ino, blk, i, e.pages, rest, fc);
    RunNoLeak(m, m', ino, log, pg, e, blk, i + 1, rest, fc);
  }

  // ----------------------------------------------------------------- freeing a run

  /** The splice into the free chain (src/gc.c:100-105). */
  function SpliceFree(next: seq<int>, fc: seq<int>, run: seq<int>): seq<int>
    requires run != [] && 0 <= run[|run| - 1] < |next| && (fc != [] ==> 0 <= fc[0] < |next|)
  {
    if fc == [] then next
    else next[run[|run| - 1] := next[fc[0]]][fc[0] := run[0]]
  }

  lemma FreeSplice(m: Mem, m': Mem, ino: nat, id: int, pos: Pos, run: seq<int>, fc: seq<int>)
    requires FreeChain(m, ino, id, fc) && RestAt(m, ino, pos, run) && run != [] && MemOk(m')
    requires 0 <= id < |m.own| && m.own[id] == Held(Use(ino, Loose))
    requires 0 <= run[|run| - 1] < |m.next| && (fc != [] ==> 0 <= fc[0] < |m.next|)
    requires m' == m.(next := SpliceFree(m.next, fc, run), own := Grant(m.own, run, Held(Use(ino, Loose))))
    ensures FreeChain(m', ino, id, SpliceAfterHead(fc, run))
  {
    hide Linked;
    RestRoles(m, ino, pos, run);
    FreeRoles(m, ino, id, fc);
    var fc' := SpliceAfterHead(fc, run);
    SpliceMembers(fc, run);
    hide SpliceAfterHead;
    assert forall p :: p in fc' ==> p in fc || p in run;
    forall x | 0 <= x < |fc'|
      ensures 0 <= fc'[x] < |m.own| && m'.own[fc'[x]] == Held(Use(ino, Loose)) && fc'[x] != id
    {
      assert fc'[x] in fc';
    }
    FreeLinks(m, ino, id, pos, run, fc);
  }

  lemma FreeLinks(m: Mem, ino: nat, id: int, pos: Pos, run: seq<int>, fc: seq<int>)
    requires FreeChain(m, ino, id, fc) && RestAt(m, ino, pos, run) && run != []
    requires 0 <= run[|run| - 1] < |m.next| && (fc != [] ==> 0 <= fc[0] < |m.next|)
    ensures Linked(SpliceFree(m.next, fc, run), SpliceAfterHead(fc, run))
  {
    if fc != [] {
      assert m.own[fc[0]] != m.own[run[|run| - 1]];
      assert SpliceFree(m.next, fc, run) == m.next[fc[0] := run[0]][run[|run| - 1] := m.next[fc[0]]];
      LinkedSplice(m.next, fc, run, SpliceFree(m.next, fc, run));
    }
  }

  lemma FreeNoLeak(m: Mem, m': Mem, ino: nat, log: seq<LogPage>, blk: LogPage, i: nat, run: seq<int>, rest: seq<int>, fc: seq<int>)
    requires i <= |blk.ents| && NoLeak(m.own, ino, log, Extra(blk, i, run + rest, fc))
    requires |m'.own| == |m.own| && m'.own == Grant(m.own, run, Held(Use(ino, Loose)))
    requires forall p | p in run :: 0 <= p < |m.own| && IsPending(m.own[p], ino)
    ensures NoLeak(m'.own, ino, log, Extra(blk, i, rest, SpliceAfterHead(fc, run)))
  {
    hide InEntry, Ids;
    SpliceMembers(fc, run);
    forall p | 0 <= p < |m'.own| && m'.own[p].Held? && m'.own[p].holder.ino == ino
      ensures Accounted(m'.own[p].holder.role, p, log, Extra(blk, i, rest, SpliceAfterHead(fc, run)))
    {
      assert Accounted(m.own[p].holder.role, p, log, Extra(blk, i, run + rest, fc));
    }
  }

  lemma GcFreeStep(m: Mem, m': Mem, ino: nat, log: seq<LogPage>, blk: LogPage, i: nat, run: seq<int>, rest: seq<int>, fc: seq<int>)
    requires GcCut(m, ino, log, blk, i, run, rest, fc) && MemOk(m')
    requires run != [] && 0 <= run[|run| - 1] < |m.next| && (fc != [] ==> 0 <= fc[0] < |m.next|)
    requires m' == m.(next := SpliceFree(m.next, fc, run), own := Grant(m.own, run, Held(Use(ino, Loose))))
    ensures GcAt(m', ino, log, blk, i, rest, SpliceAfterHead(fc, run))
    ensures OthersKept(m, m', ino)
  {
    hide LogOk, BlockAt, RestAt, FreeChain, NoLeak, NoDup, Extra, SpliceFree, OthersKept;
    RestRoles(m, ino, Pos(blk.id, i), run);
    RestRoles(m, ino, Pos(blk.id, i), rest);
    RestApart(run, rest);
    FreeRoles(m, ino, blk.id, fc);
    BlockId(m, ino, blk, i + 1);
    FreeTouches(m, run, fc);
    LogFrame(m, m', ino, log, 0);
    BlockFrame(m, m', ino, blk, i);
    RestFrame(m, m', ino, Pos(blk.id, i), rest);
    FreeSplice(m, m', ino, blk.id, Pos(blk.id, i), run, fc);
    FreeOthers(m, m', ino, run, fc);
    FreeNoLeak(m, m', ino, log, blk, i + 1, run, rest, fc);
  }

  lemma FreeTouches(m: Mem, run: seq<int>, fc: seq<int>)
    requires run != [] && 0 <= run[|run| - 1] < |m.next| && (fc != [] ==> 0 <= fc[0] < |m.next|)
    ensures |SpliceFree(m.next, fc, run)| == |m.next|
    ensures forall p | 0 <= p < |m.next| && p !in run && p !in fc :: SpliceFree(m.next, fc, run)[p] == m.next[p]
  {
    if fc != [] {
      assert fc[0] in fc;
    }
    assert run[|run| - 1] in run;
  }

  lemma FreeOthers(m: Mem, m': Mem, ino: nat, run: seq<int>, fc: seq<int>)
    requires MemOk(m) && MemOk(m') && run != [] && 0 <= run[|run| - 1] < |m.next| && (fc != [] ==> 0 <= fc[0] < |m.next|)
    requires m' == m.(next := SpliceFree(m.next, fc, run), own := Grant(m.own, run, Held(Use(ino, Loose))))
    requires forall p | p in run || p in fc :: 0 <= p < |m.own| && m.own[p].Held? && m.own[p].holder.ino == ino
    ensures OthersKept(m, m', ino)
  {
    hide SpliceFree;
    FreeTouches(m, run, fc);
  }

  lemma FreeRoles(m: Mem, ino: nat, id: int, fc: seq<int>)
    requires FreeChain(m, ino, id, fc)
    ensures MemOk(m)
    ensures forall x | 0 <= x < |fc| :: 0 <= fc[x] < |m.own| && m.own[fc[x]] == Held(Use(ino, Loose)) && fc[x] != id
    ensures forall p | p in fc :: 0 <= p < |m.own| && m.own[p] == Held(Use(ino, Loose)) && p != id
  {
  }

  // ------------------------------------------------------------------- meaning

  /** What the log says while a page is collected: `log0` is the log after the unlinking,
      `runs` the entries appended since.  As written, the pages of an appended run
      still name the collected entry, so entry words that were right stay right exactly
      as long as nothing is appended. */
  ghost predicate GcMeans(b: Build, back: seq<Pos>, index: map<nat, int>, log0: seq<LogPage>, log: seq<LogPage>, runs: seq<Ent>, size: nat) {
    && Extends(log0, log) && Entries(log) == Entries(log0) + runs
    && MarksAll(log, index, {}) && SizeOk(log, size)
    && (b == Repaired ==> BacksOk(back, log))
    && (b.AsWritten? ==> (BacksOk(back, log) <==> BacksOk(back, log0) && runs == []))
  }

  lemma GcMeansStart(b: Build, back: seq<Pos>, index: map<nat, int>, log0: seq<LogPage>, size: nat)
    requires log0 != [] && MarksAll(log0, index, {}) && SizeOk(log0, size) && (b == Repaired ==> BacksOk(back, log0))
    ensures GcMeans(b, back, index, log0, log0, [], size)
  {
    assert Entries(log0) + [] == Entries(log0);
  }

  /** Live positions are what the index points at. */
  lemma PieceMarks(e: Ent, size: nat, j: nat, k: nat, index: map<nat, int>)
    requires MarksOk(e, index, {}) && j < k <= |e.pages| && forall x | j <= x < k :: x !in e.dead
    ensures MarksOk(Piece(e, size, j, k), index, {})
  {
    var q := Piece(e, size, j, k);
    PieceSpan(e, size, j, k);
    assert FirstPage(q.rec) == SpanOf(q).first == FirstPage(e.rec) + j;
    forall i | 0 <= i < |q.pages|
      ensures Lookup(index, FirstPage(q.rec) + i) == Some(q.pages[i])
    {
      MarkedAt(e, index, {}, j + i);
    }
  }

  lemma MarksAppendLive(log: seq<LogPage>, pg: seq<LogPage>, e: Ent, index: map<nat, int>)
    requires log != [] && MarksAll(log, index, {}) && |pg| <= 1 && (pg != [] ==> pg[0].ents == []) && MarksOk(e, index, {})
    ensures MarksAll(Append(log + pg, e), index, {})
  {
    hide MarksOk, Append, EndPos;
    var log' := Append(log + pg, e);
    forall k, s | 0 <= k < |log'| && 0 <= s < |log'[k].ents|
      ensures MarksOk(log'[k].ents[s], index, {})
    {
      AppendCases(log, pg, e, k, s);
      if k < |log| && s < |log[k].ents| && log'[k].ents[s] == log[k].ents[s] {
        assert MarksOk(log[k].ents[s], index, {});
      }
    }
  }

  lemma BacksBroken(back: seq<Pos>, log: seq<LogPage>, pg: seq<LogPage>, e: Ent)
    requires log != [] && e.pages != [] && 0 <= e.pages[0] < |back| && back[e.pages[0]] != EndPos(log + pg)
    ensures !BacksOk(back, Append(log + pg, e))
  {
    hide Append, EndPos;
    AppendNew(log, pg, e);
    var log' := Append(log + pg, e);
    var k, s := |log| + |pg| - 1, |Last(log + pg).ents|;
    assert !BackOk(back, Pos(log'[k].id, s), log'[k].ents[s]);
  }

  lemma GcMeansStep(b: Build, m: Mem, back': seq<Pos>, ino: nat, index: map<nat, int>, log0: seq<LogPage>, log: seq<LogPage>,
                    pg: seq<LogPage>, e: Ent, runs: seq<Ent>, size: nat)
    requires GcMeans(b, m.back, index, log0, log, runs, size) && LogOk(m, ino, log, 0) && log != []
    requires |pg| <= 1 && (pg != [] ==> pg[0].ents == [])
    requires MarksOk(e, index, {}) && e.rec.fileSize == size && e.pages != []
    requires |back'| == |m.back| == |m.own|
    requires b == Repaired ==> BackOk(back', EndPos(log + pg), e) && forall p | 0 <= p < |m.own| && Mine(m.own[p], ino) :: back'[p] == m.back[p]
    requires b.AsWritten? ==> 0 <= e.pages[0] < |back'| && back'[e.pages[0]] != EndPos(log + pg)
    ensures GcMeans(b, back', index, log0, Append(log + pg, e), runs + [e], size)
  {
    hide LogOk, BacksOk, BackOk, Extends, Entries, MarksAll, MarksOk, SizeOk, Append, EndPos;
    AppendExtends(log0, log, pg, e);
    AppendedEntries(log, pg, e);
    assert Entries(log0) + runs + [e] == Entries(log0) + (runs + [e]);
    MarksAppendLive(log, pg, e, index);
    AppendSizeOk(log + pg, e);
    if b == Repaired {
      AppendBacks(m, back', ino, log, pg, e);
    } else {
      BacksBroken(back', log, pg, e);
    }
  }

  // ----------------------------------------------------------- from the calls' effects

  /** Handing out a slot, seen from the pages in use: `pg` is the fresh log page, if
      any. */
  ghost predicate SlotOpened(m: Mem, m1: Mem, ino: nat, pg: seq<LogPage>) {
    && MemOk(m) && MemOk(m1) && |m1.next| == |m.next|
    && m1.back == m.back && m1.bytes == m.bytes && m1.slot == m.slot
    && |pg| <= 1
    && (pg != [] ==> pg[0].ents == [] && 0 <= pg[0].id < |m.own| && m.own[pg[0].id].Free?
                     && m1.own[pg[0].id] == Held(Use(ino, LogRole)))
    && (forall p | 0 <= p < |m.own| && m.own[p].Held? :: m1.own[p] == m.own[p])
    && (forall p | 0 <= p < |m.own| && m.own[p].Held? && m.own[p] != Held(Use(ino, LogRole)) ::
          m1.next[p] == m.next[p] && m1.hdr[p] == m.hdr[p])
    && (forall p | 0 <= p < |m.own| && m.own[p].Free? && m1.own[p].Held? :: pg != [] && p == pg[0].id)
  }

  /** Then the run changes hands, the entry is filled in, and the entry words of the
      run's pages may be set. */
  lemma RunIsAppended(m: Mem, m1: Mem, m4: Mem, ino: nat, log: seq<LogPage>, pg: seq<LogPage>, e: Ent, pos: Pos)
    requires SlotOpened(m, m1, ino, pg) && MemOk(m4) && |m4.next| == |m.next| && log != []
    requires pos == EndPos(log + pg) && 0 <= pos.page < |m1.own| && m1.own[pos.page] == Held(Use(ino, LogRole))
    requires forall p | p in e.pages :: 0 <= p < |m.own| && IsPending(m.own[p], ino)
    requires m4.next == m1.next && m4.bytes == m1.bytes
    requires forall p | 0 <= p < |m4.own| :: m4.own[p] == if p in e.pages then Held(Use(ino, DataRole(pos))) else m1.own[p]
    requires forall p | 0 <= p < |m4.own| && p != pos.page :: m4.hdr[p] == m1.hdr[p] && m4.slot[p] == m1.slot[p]
    requires forall p | 0 <= p < |m4.own| && p !in e.pages :: m4.back[p] == m1.back[p]
    ensures RunAppended(m, m4, ino, log, pg, e) && OthersKept(m, m4, ino)
  {
  }

  lemma SlotOthers(m: Mem, m1: Mem, ino: nat, pg: seq<LogPage>)
    requires SlotOpened(m, m1, ino, pg)
    ensures OthersKept(m, m1, ino)
  {
  }

  lemma GcCutParts(m: Mem, ino: nat, log: seq<LogPage>, blk: LogPage, i: nat, run: seq<int>, rest: seq<int>, fc: seq<int>)
    requires GcCut(m, ino, log, blk, i, run, rest, fc)
    ensures log != [] && LogOk(m, ino, log, 0) && MemOk(m) && run != [] && Linked(m.next, run)
    ensures forall p | p in run :: 0 <= p < |m.own| && m.own[p] == Held(Use(ino, Pending(Pos(blk.id, i))))
    ensures forall x | 0 <= x < |run| :: 0 <= run[x] < |m.own| && run[x] in run
    ensures 0 <= blk.id < |m.own| && m.own[blk.id] == Held(Use(ino, Loose))
  {
  }

  /** The run in the hands of the append. */
  lemma RunLoose(m1: Mem, ino: nat, log: seq<LogPage>, run: seq<int>, own': seq<Owner<Use>>)
    requires LogOk(m1, ino, log, 1) && Linked(m1.next, run)
    requires forall p | p in run :: 0 <= p < |m1.own| && IsPending(m1.own[p], ino)
    requires own' == Grant(m1.own, run, Held(Use(ino, Loose)))
    ensures LogOk(m1.(own := own'), ino, log, 1)
  {
    hide Linked;
    LogMem(m1, ino, log, 1);
    LogFrame(m1, m1.(own := own'), ino, log, 1);
  }

  lemma RunStays(m: Mem, m1: Mem, ino: nat, pg: seq<LogPage>, run: seq<int>)
    requires SlotOpened(m, m1, ino, pg) && Linked(m.next, run)
    requires forall p | p in run :: 0 <= p < |m.own| && IsPending(m.own[p], ino)
    ensures Linked(m1.next, run)
    ensures forall p | p in run :: 0 <= p < |m1.own| && IsPending(m1.own[p], ino)
  {
    assert forall x | 0 <= x < |run| :: run[x] in run;
    LinkedFrame(m.next, m1.next, run);
  }

  // ------------------------------------------------------------ start and end of a page

  /** The collector picked this page, its bitmaps are right and its data pages name
      their entries. */
  ghost predicate Collected(hdr: seq<Counters>, back: seq<Pos>, index: map<nat, int>, blk: LogPage) {
    && 0 <= blk.id < |hdr| && hdr[blk.id] == CountersOf(blk.ents) && Collectable(hdr[blk.id])
    && (forall s | 0 <= s < |blk.ents| :: MarksOk(blk.ents[s], index, {}) && BackOk(back, Pos(blk.id, s), blk.ents[s]))
  }

  /** Position of page `p` on one of the lists: at most `depth`. */
  ghost predicate Shallow(free: seq<seq<int>>, p: int, depth: nat) {
    exists l, j :: 0 <= l < |free| && 0 <= j < |free[l]| && j <= depth && free[l][j] == p
  }

  /** A collected log page is near the front of a list, with its counters and records as
      they were. */
  ghost predicate FreedPage(m: Mem, free: seq<seq<int>>, pg: LogPage) {
    && MemOk(m) && 0 <= pg.id < |m.own| && m.own[pg.id].Free? && m.hdr[pg.id] == CountersOf(pg.ents)
    && |pg.ents| <= SLOTS && (forall s | 0 <= s < |pg.ents| :: m.slot[pg.id][s] == pg.ents[s].rec)
    && Shallow(free, pg.id, 1 + CountersOf(pg.ents).invalidPages)
  }

  /** The log page and then the free chain go to the lists. */
  lemma ReleasedShallow(free: seq<seq<int>>, l: nat, id: int, l': nat, fc: seq<int>)
    requires l < |free| && l' < |free| && fc != []
    ensures Shallow(PushedLists(PushedLists(free, l, [id]), l', fc), id, 1 + |fc|)
  {
    var f1 := PushedLists(free, l, [id]);
    var j := if free[l] == [] then 0 else 1;
    assert f1[l][j] == id;
    var f2 := PushedLists(f1, l', fc);
    var j' := if l' == l && j == 1 then 1 + |fc| else j;
    assert 0 <= l < |f2| && 0 <= j' < |f2[l]| && f2[l][j'] == id;
  }

  /** What the collector as written leaves: the index still leads to every moved page, and
      the page's entry word to an entry of the collected log page, which is free.  The
      next write to that file page marks a slot there. */
  ghost predicate WordsNameFreed(m: Mem, index: map<nat, int>, blk: LogPage) {
    && 0 <= blk.id < |m.own| && m.own[blk.id].Free?
    && forall s, i | 0 <= s < |blk.ents| && 0 <= i < |blk.ents[s].pages| && i !in blk.ents[s].dead ::
         var q := blk.ents[s].pages[i];
         Lookup(index, FirstPage(blk.ents[s].rec) + i) == Some(q) && 0 <= q < |m.back| && m.back[q] == Pos(blk.id, s)
  }

  lemma WordsStay(m: Mem, hdr: seq<Counters>, index: map<nat, int>, blk: LogPage)
    requires Collected(hdr, m.back, index, blk) && 0 <= blk.id < |m.own| && m.own[blk.id].Free?
    ensures WordsNameFreed(m, index, blk)
  {
    forall s, i | 0 <= s < |blk.ents| && 0 <= i < |blk.ents[s].pages| && i !in blk.ents[s].dead
      ensures Lookup(index, FirstPage(blk.ents[s].rec) + i) == Some(blk.ents[s].pages[i])
      ensures 0 <= blk.ents[s].pages[i] < |m.back| && m.back[blk.ents[s].pages[i]] == Pos(blk.id, s)
    {
      MarkedAt(blk.ents[s], index, {}, i);
      BackAt(m.back, Pos(blk.id, s), blk.ents[s], i);
    }
  }

  lemma GcDoneParts(m: Mem, ino: nat, log: seq<LogPage>, blk: LogPage, fc: seq<int>)
    requires GcBetween(m, ino, log, blk, |blk.ents|, fc)
    ensures MemOk(m) && log != [] && LogOk(m, ino, log, 0)
    ensures 0 <= blk.id < |m.own| && m.own[blk.id] == Held(Use(ino, Loose)) && Linked(m.next, [blk.id])
    ensures 0 <= blk.id < |m.hdr| && m.hdr[blk.id] == CountersOf(blk.ents) && |blk.ents| <= SLOTS && blk.id < |m.slot| && |m.slot[blk.id]| == SLOTS
    ensures forall s | 0 <= s < |blk.ents| :: m.slot[blk.id][s] == blk.ents[s].rec
    ensures NoLeak(m.own, ino, log, {blk.id} + set p | p in fc)
  {
    assert Extra(blk, |blk.ents|, [], fc) == {blk.id} + set p | p in fc;
  }

  lemma ReleasedOthers(m0: Mem, m: Mem, m': Mem, ino: nat, c: seq<int>)
    requires OthersKept(m0, m, ino) && MemOk(m') && |m'.next| == |m.next|
    requires forall p | p in c :: 0 <= p < |m.own| && m.own[p] == Held(Use(ino, Loose))
    requires m'.hdr == m.hdr && m'.back == m.back && m'.bytes == m.bytes && m'.slot == m.slot
    requires forall p | 0 <= p < |m.own| :: if p in c then m'.own[p].Free? else m'.own[p] == m.own[p]
    requires forall p | 0 <= p < |m.own| && m.own[p].Held? && p !in c :: m'.next[p] == m.next[p]
    ensures OthersKept(m0, m', ino)
  {
  }

  lemma ReleasedLog(m: Mem, m': Mem, ino: nat, log: seq<LogPage>, c: seq<int>, loose: set<int>)
    requires LogOk(m, ino, log, 0) && NoLeak(m.own, ino, log, loose) && MemOk(m') && |m'.next| == |m.next|
    requires forall p | p in c :: 0 <= p < |m.own| && m.own[p] == Held(Use(ino, Loose))
    requires m'.hdr == m.hdr && m'.slot == m.slot
    requires forall p | 0 <= p < |m.own| :: if p in c then m'.own[p].Free? else m'.own[p] == m.own[p]
    requires forall p | 0 <= p < |m.own| && m.own[p].Held? && p !in c :: m'.next[p] == m.next[p]
    ensures LogOk(m', ino, log, 0) && NoLeak(m'.own, ino, log, loose - set p | p in c)
  {
    hide LogOk, InEntry, Ids;
    LogMem(m, ino, log, 0);
    LogFrame(m, m', ino, log, 0);
    forall p | 0 <= p < |m'.own| && m'.own[p].Held? && m'.own[p].holder.ino == ino
      ensures Accounted(m'.own[p].holder.role, p, log, loose - set p | p in c)
    {
      assert Accounted(m.own[p].holder.role, p, log, loose);
    }
  }

  lemma FirstRelease(m0: Mem, m: Mem, m1: Mem, ino: nat, log: seq<LogPage>, blk: LogPage, fc: seq<int>)
    requires GcBetween(m, ino, log, blk, |blk.ents|, fc) && OthersKept(m0, m, ino) && MemOk(m1) && |m1.next| == |m.next|
    requires m1.hdr == m.hdr && m1.back == m.back && m1.bytes == m.bytes && m1.slot == m.slot
    requires forall p | 0 <= p < |m.own| :: if p in [blk.id] then m1.own[p].Free? else m1.own[p] == m.own[p]
    requires forall p | 0 <= p < |m.own| && m.own[p].Held? && p !in [blk.id] :: m1.next[p] == m.next[p]
    ensures OthersKept(m0, m1, ino) && LogOk(m1, ino, log, 0) && NoLeak(m1.own, ino, log, set p | p in fc)
    ensures Linked(m1.next, fc) && forall p | p in fc :: 0 <= p < |m1.own| && m1.own[p] == Held(Use(ino, Loose))
    ensures forall x | 0 <= x < |fc| :: fc[x] in fc
  {
    hide LogOk, NoLeak, BlockAt, OthersKept;
    GcDoneParts(m, ino, log, blk, fc);
    FreeRoles(m, ino, blk.id, fc);
    ReleasedOthers(m0, m, m1, ino, [blk.id]);
    ReleasedLog(m, m1, ino, log, [blk.id], {blk.id} + set p | p in fc);
    assert ({blk.id} + set p | p in fc) - (set p | p in [blk.id]) == set p | p in fc;
    FreeKept(m, m1, ino, blk.id, fc);
  }

  lemma FreeKept(m: Mem, m1: Mem, ino: nat, id: int, fc: seq<int>)
    requires FreeChain(m, ino, id, fc) && |m1.next| == |m.next| == |m1.own| == |m.own|
    requires forall p | 0 <= p < |m.own| && m.own[p].Held? && p != id :: m1.own[p] == m.own[p] && m1.next[p] == m.next[p]
    ensures Linked(m1.next, fc) && forall p | p in fc :: 0 <= p < |m1.own| && m1.own[p] == Held(Use(ino, Loose))
  {
    LinkedFrame(m.next, m1.next, fc);
  }

  lemma SecondRelease(m0: Mem, m1: Mem, m2: Mem, ino: nat, log: seq<LogPage>, fc: seq<int>)
    requires OthersKept(m0, m1, ino) && LogOk(m1, ino, log, 0) && NoLeak(m1.own, ino, log, set p | p in fc)
    requires MemOk(m2) && |m2.next| == |m1.next|
    requires forall p | p in fc :: 0 <= p < |m1.own| && m1.own[p] == Held(Use(ino, Loose))
    requires m2.hdr == m1.hdr && m2.back == m1.back && m2.bytes == m1.bytes && m2.slot == m1.slot
    requires forall p | 0 <= p < |m1.own| :: if p in fc then m2.own[p].Free? else m2.own[p] == m1.own[p]
    requires forall p | 0 <= p < |m1.own| && m1.own[p].Held? && p !in fc :: m2.next[p] == m1.next[p]
    ensures OthersKept(m0, m2, ino) && LogOk(m2, ino, log, 0) && NoLeak(m2.own, ino, log, {})
  {
    hide LogOk, NoLeak, OthersKept;
    LogMem(m1, ino, log, 0);
    ReleasedOthers(m0, m1, m2, ino, fc);
    ReleasedLog(m1, m2, ino, log, fc, set p | p in fc);
    assert (set p | p in fc) - (set p | p in fc) == {};
  }
}
