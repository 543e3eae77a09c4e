/** Interleavings of the lock-protected sections of src/allocator.c.  Any number
    of threads run on any CPU; a section is one atomic step, and between sections
    a thread may rewrite the links of the pages it holds. */
module Threads {
  import opened Chains
  import opened PageLists
  import opened Format

  /** `own`, `free` and `pushed` are history variables: the holder of each page,
      the contents of each list, and the pages whose return was not counted. */
  datatype Sys = Sys(pool: Pool, own: seq<Owner<nat>>, free: seq<seq<int>>, pushed: seq<nat>)

  datatype Act =
    | Fill(cpu: nat)
    | Take(thread: nat, cpu: nat, n: nat)
    | Give(thread: nat, list: nat, chain: seq<int>)
    | Relink(thread: nat, page: nat, link: int)

  ghost predicate SysOk(s: Sys) {
    Inv(s.pool, s.own, s.free, s.pushed)
  }

  /** When the section can run.  The code checks neither that the global list can
      supply a refill nor, as written, the two cases `RefillExact` and `PushExact`
      single out; those are the last conjunct of `Fill` and of `Give`. */
  ghost predicate Enabled(b: Build, s: Sys, a: Act)
    requires SysOk(s)
  {
    match a
    case Fill(cpu) => cpu < CPUS && FILL_MAX <= |s.free[GLOBAL]| && RefillSafe(s.pool, b, cpu + 1)
    case Take(t, cpu, n) => cpu < CPUS && 0 < n <= s.pool.count[cpu + 1]
    case Give(t, l, c) =>
      && l < LISTS && c != [] && Linked(s.pool.next, c)
      && (forall i | 0 <= i < |c| :: s.own[c[i]] == Held(t))
      && (b == Repaired || s.free[l] != [])
    case Relink(t, p, q) => p < |s.own| && s.own[p] == Held(t)
  }

  ghost function Next(b: Build, s: Sys, a: Act): (r: Sys)
    requires SysOk(s) && Enabled(b, s, a)
    ensures SysOk(r)
  {
    match a
    case Fill(cpu) => Filled(b, s, cpu)
    case Take(t, cpu, n) => Taken(b, s, t, cpu, n)
    case Give(t, l, c) => Handed(b, s, t, l, c)
    case Relink(t, p, q) =>
      RelinkKeeps(s, p, q);
      s.(pool := s.pool.(next := s.pool.next[p := q]))
  }

  ghost function Filled(b: Build, s: Sys, cpu: nat): (r: Sys)
    requires SysOk(s) && Enabled(b, s, Fill(cpu))
    ensures SysOk(r)
  {
    RefillKeeps(s.pool, b, s.own, s.free, s.pushed, cpu + 1, FILL_MAX);
    Sys(Refill(s.pool, b, cpu + 1, FILL_MAX),
        Grant(s.own, s.free[GLOBAL][..FILL_MAX], Free(cpu + 1)),
        RefilledLists(s.free, cpu + 1, FILL_MAX), s.pushed)
  }

  ghost function Taken(b: Build, s: Sys, t: nat, cpu: nat, n: nat): (r: Sys)
    requires SysOk(s) && Enabled(b, s, Take(t, cpu, n))
    ensures SysOk(r)
  {
    PopKeeps(s.pool, s.own, s.free, s.pushed, cpu + 1, n, t);
    Sys(Pop(s.pool, cpu + 1, n),
        Grant(s.own, s.free[cpu + 1][..n], Held(t)),
        s.free[cpu + 1 := s.free[cpu + 1][n..]], s.pushed)
  }

  ghost function Handed(b: Build, s: Sys, t: nat, l: nat, c: seq<int>): (r: Sys)
    requires SysOk(s) && Enabled(b, s, Give(t, l, c))
    ensures SysOk(r)
  {
    PushKeeps(s.pool, b, s.own, s.free, s.pushed, l, c);
    Sys(Push(s.pool, b, l, c[0], |c|),
        Grant(s.own, c, Free(l)), PushedLists(s.free, l, c), Uncounted(b, s.pushed, l, |c|))
  }

  lemma RelinkKeeps(s: Sys, p: nat, q: int)
    requires SysOk(s) && p < |s.own| && s.own[p].Held?
    ensures Inv(s.pool.(next := s.pool.next[p := q]), s.own, s.free, s.pushed)
  {
    var s' := s.pool.(next := s.pool.next[p := q]);
    forall l | 0 <= l < LISTS
      ensures ListOk(s', s.own, s.free[l], l)
    {
      ListFrame(s.pool, s.own, s', s.own, s.free[l], l);
    }
  }

  ghost predicate CanRun(b: Build, s: Sys, acts: seq<Act>)
    requires SysOk(s)
    decreases |acts|
  {
    acts == [] || (Enabled(b, s, acts[0]) && CanRun(b, Next(b, s, acts[0]), acts[1..]))
  }

  ghost function Run(b: Build, s: Sys, acts: seq<Act>): (r: Sys)
    requires SysOk(s) && CanRun(b, s, acts)
    ensures SysOk(r)
    decreases |acts|
  {
    if acts == [] then s else Run(b, Next(b, s, acts[0]), acts[1..])
  }

  /** After any interleaving every page has exactly one owner, and a page on a list
      is there once and on no other list. */
  lemma AfterAnyRunEachPageOnce(b: Build, s: Sys, acts: seq<Act>, p: nat)
    requires SysOk(s) && CanRun(b, s, acts) && p < |s.own|
    ensures var r := Run(b, s, acts);
      && |r.own| == |s.own|
      && (forall l | 0 <= l < LISTS :: p in r.free[l] <==> r.own[p] == Free(l))
      && (forall l, i, j | 0 <= l < LISTS && 0 <= i < j < |r.free[l]| :: !(r.free[l][i] == p && r.free[l][j] == p))
  {
    RunKeepsSize(b, s, acts);
    var r := Run(b, s, acts);
    EachPageOnce(r.pool, r.own, r.free, r.pushed, p);
  }

  lemma {:induction false} RunKeepsSize(b: Build, s: Sys, acts: seq<Act>)
    requires SysOk(s) && CanRun(b, s, acts)
    ensures |Run(b, s, acts).own| == |s.own|
    decreases |acts|
  {
    if acts != [] {
      NextKeepsSize(b, s, acts[0]);
      RunKeepsSize(b, Next(b, s, acts[0]), acts[1..]);
    }
  }

  lemma NextKeepsSize(b: Build, s: Sys, a: Act)
    requires SysOk(s) && Enabled(b, s, a)
    ensures |Next(b, s, a).own| == |s.own|
  {
  }

  /** A thread that takes part in a step; refills take no thread's pages. */
  predicate By(a: Act, u: nat) {
    match a
    case Fill(_) => false
    case Take(t, _, _) => t == u
    case Give(t, _, _) => t == u
    case Relink(t, _, _) => t == u
  }

  /** No step of other threads takes a page away from `u`, hands it one, or changes
      a link inside its pages. */
  lemma StepLeavesOthersAlone(b: Build, s: Sys, a: Act, u: nat, p: nat)
    requires SysOk(s) && Enabled(b, s, a) && !By(a, u) && p < |s.own|
    ensures |Next(b, s, a).own| == |s.own|
    ensures Next(b, s, a).own[p] == Held(u) <==> s.own[p] == Held(u)
    ensures s.own[p] == Held(u) ==> Next(b, s, a).pool.next[p] == s.pool.next[p]
  {
    hide Refill, Pop, Push, Walk, Linked, ListOk;
    match a
    case Fill(cpu) =>
      RefillTouches(s.pool, b, s.own, s.free, s.pushed, cpu + 1, FILL_MAX, p);
    case Take(t, cpu, n) =>
      PopTouches(s.pool, s.own, s.free, s.pushed, cpu + 1, n, p);
    case Give(t, l, c) =>
      PushTouches(s.pool, b, s.own, s.free, s.pushed, l, c, p);
    case Relink(t, q, v) =>
  }

  lemma {:induction false} RunLeavesOthersAlone(b: Build, s: Sys, acts: seq<Act>, u: nat, p: nat)
    requires SysOk(s) && CanRun(b, s, acts) && p < |s.own|
    requires forall i | 0 <= i < |acts| :: !By(acts[i], u)
    ensures |Run(b, s, acts).own| == |s.own|
    ensures Run(b, s, acts).own[p] == Held(u) <==> s.own[p] == Held(u)
    ensures s.own[p] == Held(u) ==> Run(b, s, acts).pool.next[p] == s.pool.next[p]
    decreases |acts|
  {
    if acts != [] {
      StepLeavesOthersAlone(b, s, acts[0], u, p);
      RunLeavesOthersAlone(b, Next(b, s, acts[0]), acts[1..], u, p);
    }
  }

  /** A taken page belonged to no thread, and then belongs to the taker alone. */
  lemma TakeIsExclusive(b: Build, s: Sys, t: nat, cpu: nat, n: nat, i: nat)
    requires SysOk(s) && Enabled(b, s, Take(t, cpu, n)) && i < n
    ensures n <= |s.free[cpu + 1]|
    ensures s.own[s.free[cpu + 1][i]] == Free(cpu + 1)
    ensures Next(b, s, Take(t, cpu, n)).own[s.free[cpu + 1][i]] == Held(t)
    ensures Linked(Next(b, s, Take(t, cpu, n)).pool.next, s.free[cpu + 1][..n])
  {
    hide Refill, Push, Pop, Linked, Walk, SpliceAfterHead;
    PopKeeps(s.pool, s.own, s.free, s.pushed, cpu + 1, n, t);
    assert ListOk(s.pool, s.own, s.free[cpu + 1], cpu + 1);
    assert s.free[cpu + 1][i] in s.free[cpu + 1][..n];
  }

  /** With the repairs, `count` is the length of its list between any two sections. */
  lemma {:induction false} RepairedCounts(s: Sys, acts: seq<Act>, l: nat)
    requires SysOk(s) && CanRun(Repaired, s, acts) && l < LISTS
    requires forall m | 0 <= m < LISTS :: s.pushed[m] == 0
    ensures var r := Run(Repaired, s, acts); r.pool.count[l] == |r.free[l]|
    decreases |acts|
  {
    if acts != [] {
      RepairedCounts(Next(Repaired, s, acts[0]), acts[1..], l);
    }
  }

  /** Pages given to list `l` in a run. */
  function Given(acts: seq<Act>, l: nat): nat {
    if acts == [] then 0
    else (if acts[0].Give? && acts[0].list == l then |acts[0].chain| else 0) + Given(acts[1..], l)
  }

  /** As written, `count` of a local list equals its length after a run if and only
      if the run gave no page to that list. */
  lemma {:induction false} AsWrittenCounts(wild: int, s: Sys, acts: seq<Act>, l: nat)
    requires SysOk(s) && CanRun(AsWritten(wild), s, acts) && l < LISTS
    ensures var r := Run(AsWritten(wild), s, acts);
      && r.pool.count[l] == |r.free[l]| - s.pushed[l] - Given(acts, l)
      && (s.pushed[l] == 0 ==> (r.pool.count[l] == |r.free[l]| <==> Given(acts, l) == 0))
    decreases |acts|
  {
    if acts != [] {
      var b := AsWritten(wild);
      var n := Next(b, s, acts[0]);
      assert n.pushed[l] == s.pushed[l] + (if acts[0].Give? && acts[0].list == l then |acts[0].chain| else 0);
      AsWrittenCounts(wild, n, acts[1..], l);
    }
  }

  // ------------------------------------------------------- runs of the code as written

  /** The system after initialisation. */
  ghost function Fresh(n: nat): (r: Sys)
    requires 0 < n
    ensures SysOk(r)
  {
    FormattedOk<nat>(n);
    Sys(Formatted(n), seq(n, p => Owner<nat>.Free(GLOBAL)), FormattedLists(n), seq(LISTS, l => 0))
  }

  /** Thread 0 takes `n` pages on CPU 0, at most 64 at a time. */
  function TakeAll(n: nat): seq<Act> {
    if n == 0 then []
    else if n <= 64 then [Take(0, 0, n)]
    else [Take(0, 0, 64)] + TakeAll(n - 64)
  }

  lemma {:induction false} TakeAllRuns(b: Build, s: Sys, n: nat)
    requires SysOk(s) && s.pushed[1] == 0 && n <= |s.free[1]|
    ensures CanRun(b, s, TakeAll(n))
    ensures var r := Run(b, s, TakeAll(n)); r.free == s.free[1 := s.free[1][n..]] && r.pushed == s.pushed
    decreases n
  {
    hide Pop, Linked, ListOk;
    if n > 0 {
      var k := if n <= 64 then n else 64;
      TakeOne(b, s, k);
      if n > 64 {
        var t := Next(b, s, Take(0, 0, 64));
        TakeAllRuns(b, t, n - 64);
        assert s.free[1][64..][n - 64..] == s.free[1][n..];
        assert TakeAll(n)[1..] == TakeAll(n - 64);
      } else {
        assert TakeAll(n)[1..] == [];
      }
    } else {
      assert s.free[1][0..] == s.free[1];
      assert s.free[1 := s.free[1]] == s.free;
    }
  }

  lemma TakeOne(b: Build, s: Sys, k: nat)
    requires SysOk(s) && s.pushed[1] == 0 && 0 < k <= |s.free[1]|
    ensures Enabled(b, s, Take(0, 0, k))
    ensures var t := Next(b, s, Take(0, 0, k)); t.free == s.free[1 := s.free[1][k..]] && t.pushed == s.pushed
  {
    hide Pop, Linked, ListOk;
  }

  lemma FillFirst(wild: int, n: nat)
    requires FILL_MAX <= n
    ensures Enabled(AsWritten(wild), Fresh(n), Fill(0))
    ensures var t := Next(AsWritten(wild), Fresh(n), Fill(0));
      && t.free[1] == Down(n)[..FILL_MAX] && t.free[GLOBAL] == Down(n)[FILL_MAX..] && t.free[2] == []
      && t.pushed == seq(LISTS, l => 0)
  {
    hide Refill, Linked, ListOk;
  }

  /** A refill, then 511 pages taken: the local list holds one page, and a refill as
      written loses the list. */
  lemma RefillExample(wild: int) returns (r: Sys)
    requires wild != NIL
    ensures var acts := [Fill(0)] + TakeAll(511);
      CanRun(AsWritten(wild), Fresh(1024), acts) && r == Run(AsWritten(wild), Fresh(1024), acts)
    ensures SysOk(r) && |r.free[1]| == 1 && |r.free[GLOBAL]| == FILL_MAX
    ensures IsPage(r.pool, Walk(r.pool.next, r.pool.head[GLOBAL], FILL_MAX - 1))
    ensures !Linked(Refill(r.pool, AsWritten(wild), 1, FILL_MAX).next, SpliceAfterHead(r.free[1], r.free[GLOBAL][..FILL_MAX]))
  {
    hide Refill, Pop, Linked, ListOk, SpliceAfterHead;
    var b, s, acts := AsWritten(wild), Fresh(1024), [Fill(0)] + TakeAll(511);
    FillFirst(wild, 1024);
    var t := Next(b, s, Fill(0));
    TakeAllRuns(b, t, 511);
    assert acts[1..] == TakeAll(511);
    r := Run(b, s, acts);
    LastOfGlobal(r);
    RefillExact(r.pool, wild, r.own, r.free, r.pushed, 1, FILL_MAX);
  }

  lemma LastOfGlobal(s: Sys)
    requires SysOk(s) && FILL_MAX <= |s.free[GLOBAL]|
    ensures IsPage(s.pool, Walk(s.pool.next, s.pool.head[GLOBAL], FILL_MAX - 1))
  {
    assert ListOk(s.pool, s.own, s.free[GLOBAL], GLOBAL);
    WalkLinked(s.pool.next, s.free[GLOBAL], FILL_MAX - 1);
  }

  /** One page taken on CPU 0: who frees it on CPU 1, whose list is empty, loses it. */
  lemma PushExample(wild: int) returns (r: Sys)
    ensures var acts := [Fill(0)] + TakeAll(1);
      CanRun(AsWritten(wild), Fresh(1024), acts) && r == Run(AsWritten(wild), Fresh(1024), acts)
    ensures SysOk(r) && r.free[2] == [] && |r.own| == 1024 && r.own[1023] == Held(0) && Linked(r.pool.next, [1023])
    ensures Push(r.pool, AsWritten(wild), 2, 1023, 1).head[2] == NIL
  {
    hide Refill, Pop, Linked, ListOk, SpliceAfterHead;
    var b, s, acts := AsWritten(wild), Fresh(1024), [Fill(0)] + TakeAll(1);
    FillFirst(wild, 1024);
    var t := Next(b, s, Fill(0));
    TakeAllRuns(b, t, 1);
    assert acts[1..] == TakeAll(1);
    r := Run(b, s, acts);
    TakenFirst(b, t, 1023);
    RunKeepsSize(b, s, acts);
    NothingOn(r, 2);
  }

  lemma TakenFirst(b: Build, t: Sys, x: nat)
    requires SysOk(t) && t.pushed[1] == 0 && 0 < |t.free[1]| && t.free[1][0] == x < |t.own|
    ensures CanRun(b, t, TakeAll(1))
    ensures var r := Run(b, t, TakeAll(1)); |r.own| == |t.own| && r.own[x] == Held(0) && Linked(r.pool.next, [x])
  {
    hide Pop, Linked, ListOk;
    TakeAllRuns(b, t, 1);
    TakeOne(b, t, 1);
    TakeIsExclusive(b, t, 0, 0, 1, 0);
    assert TakeAll(1)[1..] == [];
    assert t.free[1][..1] == [x];
  }

  lemma NothingOn(s: Sys, l: nat)
    requires SysOk(s) && l < LISTS && s.free[l] == []
    ensures s.pool.head[l] == NIL
  {
    assert ListOk(s.pool, s.own, s.free[l], l);
  }

  lemma RunMore(b: Build, s: Sys, a: Act, rest: seq<Act>)
    requires SysOk(s) && Enabled(b, s, a) && CanRun(b, Next(b, s, a), rest)
    ensures CanRun(b, s, [a] + rest) && Run(b, s, [a] + rest) == Run(b, Next(b, s, a), rest)
  {
    hide Enabled, Next;
    assert ([a] + rest)[1..] == rest;
  }

  lemma GiveOne(wild: int, u: Sys)
    requires SysOk(u) && |u.own| == 1024 && u.own[1023] == Held(0) && Linked(u.pool.next, [1023]) && u.free[1] != []
    ensures Enabled(AsWritten(wild), u, Give(0, 1, [1023]))
    ensures |Next(AsWritten(wild), u, Give(0, 1, [1023])).free[1]| == |u.free[1]| + 1
  {
    hide Push, Linked, ListOk;
    SpliceMembers(u.free[1], [1023]);
  }

  /** The page goes back on CPU 0 instead: the list has 512 pages and counts 511. */
  lemma CountExample(wild: int) returns (r: Sys)
    ensures var acts := [Fill(0)] + ([Take(0, 0, 1)] + [Give(0, 1, [1023])]);
      CanRun(AsWritten(wild), Fresh(1024), acts) && r == Run(AsWritten(wild), Fresh(1024), acts)
    ensures |r.free[1]| == FILL_MAX && r.pool.count[1] == FILL_MAX - 1
  {
    hide Refill, Pop, Push, Linked, ListOk, Enabled, Next, SpliceAfterHead;
    var b, s := AsWritten(wild), Fresh(1024);
    var take, give := Take(0, 0, 1), Give(0, 1, [1023]);
    FillFirst(wild, 1024);
    var t := Next(b, s, Fill(0));
    FreshSize(b, Fill(0));
    TakeOne(b, t, 1);
    TakenFirst(b, t, 1023);
    var u := Next(b, t, take);
    assert TakeAll(1) == [take] && [take][1..] == [];
    assert u == Run(b, t, TakeAll(1));
    GiveOne(wild, u);
    r := Next(b, u, give);
    assert [give][1..] == [];
    RunMore(b, t, take, [give]);
    RunMore(b, s, Fill(0), [take] + [give]);
    OneGiven();
    AsWrittenCounts(wild, s, [Fill(0)] + ([take] + [give]), 1);
  }

  lemma OneGiven()
    ensures Given([Fill(0)] + ([Take(0, 0, 1)] + [Give(0, 1, [1023])]), 1) == 1
  {
    var give := [Give(0, 1, [1023])];
    var rest := [Take(0, 0, 1)] + give;
    var all := [Fill(0)] + rest;
    assert all[1..] == rest && all[0] == Fill(0) && rest[1..] == give && rest[0] == Take(0, 0, 1) && give[1..] == [];
    assert Given(give, 1) == 1;
    assert Given(rest, 1) == 1;
  }

  lemma FreshSize(b: Build, a: Act)
    requires Enabled(b, Fresh(1024), a)
    ensures |Next(b, Fresh(1024), a).own| == 1024
  {
    NextKeepsSize(b, Fresh(1024), a);
  }
}
