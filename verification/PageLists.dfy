/** The page lists of src/allocator.c: one global list and one per CPU, all
    threaded through the same `next_offset` words.  Each lock-protected section
    is a function from one pool state to the next. */
module PageLists {
  import opened Chains

  const CPUS := 64
  const LISTS := CPUS + 1 // list 0 is the global one, list `cpu + 1` belongs to `cpu`
  const GLOBAL := 0
  const FILL_MAX := 512

  /** `AsWritten(wild)` is the code as it stands, in a run where a header read
      through OFFSET_NULL yields `wild`; `Repaired` treats OFFSET_NULL as the end
      of a list and keeps `count` in step with `free_pages`. */
  datatype Build = AsWritten(wild: int) | Repaired

  /** `count` is kept as a difference of page counts.  The word in memory is its
      residue modulo 2^64; only the global list of the code as written can drop
      below zero, and no section compares that count. */
  datatype Pool = Pool(next: seq<int>, head: seq<int>, count: seq<int>)

  /** Who holds a page: one of the lists, or a holder. */
  datatype Owner<T> = Free(list: nat) | Held(holder: T)

  predicate ShapeOk(s: Pool) {
    && |s.head| == |s.count| == LISTS
    && (forall l | 0 <= l < LISTS :: s.head[l] == NIL || 0 <= s.head[l] < |s.next|)
  }

  predicate IsPage(s: Pool, p: int) {
    0 <= p < |s.next|
  }

  /** `fill_local_page_list`: cut the first `k` pages off the global list and put
      them on local list `l`. */
  function Refill(s: Pool, b: Build, l: nat, k: nat): Pool
    requires ShapeOk(s) && 0 < l < LISTS && 0 < k
    requires IsPage(s, Walk(s.next, s.head[GLOBAL], k - 1))
  {
    var first := s.head[GLOBAL];
    var last := Walk(s.next, first, k - 1);
    var cut := s.next[last := NIL];
    var count' := s.count[GLOBAL := s.count[GLOBAL] - k][l := s.count[l] + k];
    var head' := s.head[GLOBAL := s.next[last]];
    if s.head[l] == NIL then
      Pool(cut, head'[l := first], count')
    else
      var h := s.head[l];
      var second := if cut[h] == NIL && b.AsWritten? then b.wild else cut[h];
      Pool(cut[h := first][last := second], head', count')
  }

  /** The pop section of `alloc_free_pages`: cut the first `n` pages off list `l`. */
  function Pop(s: Pool, l: nat, n: nat): Pool
    requires ShapeOk(s) && l < LISTS && 0 < n
    requires IsPage(s, Walk(s.next, s.head[l], n - 1))
  {
    var last := Walk(s.next, s.head[l], n - 1);
    Pool(s.next[last := NIL], s.head[l := s.next[last]], s.count[l := s.count[l] - n])
  }

  /** `free_pages`: splice the `n` pages chained from `first` in after the head
      page of list `l`. */
  function Push(s: Pool, b: Build, l: nat, first: int, n: nat): Pool
    requires ShapeOk(s) && l < LISTS && 0 < n && IsPage(s, first)
    requires IsPage(s, Walk(s.next, first, n - 1))
  {
    var last := Walk(s.next, first, n - 1);
    var h := s.head[l];
    match b
    case AsWritten(wild) =>
      if h == NIL then s.(next := s.next[last := wild])
      else s.(next := s.next[h := first][last := s.next[h]])
    case Repaired =>
      var count' := s.count[l := s.count[l] + n];
      if h == NIL then Pool(s.next[last := NIL], s.head[l := first], count')
      else Pool(s.next[h := first][last := s.next[h]], s.head, count')
  }

  // ---------------------------------------------------------------- invariant

  /** `f` holds exactly the pages owned by list `l`. */
  ghost predicate Holds<T>(own: seq<Owner<T>>, f: seq<int>, l: nat) {
    && (forall i | 0 <= i < |f| :: 0 <= f[i] < |own| && own[f[i]] == Free(l))
    && (forall p | 0 <= p < |own| :: own[p] == Free(l) ==> p in f)
  }

  /** `f` is list `l`, in order, and holds exactly the pages owned by that list. */
  ghost predicate ListOk<T>(s: Pool, own: seq<Owner<T>>, f: seq<int>, l: nat)
    requires l < |s.head| && |own| == |s.next|
  {
    && Linked(s.next, f)
    && s.head[l] == First(f)
    && Holds(own, f, l)
  }

  /** `pushed[l]` counts the pages put on list `l` by a `free_pages` that did not
      raise `count`; the repaired build keeps it at zero. */
  ghost predicate Inv<T>(s: Pool, own: seq<Owner<T>>, free: seq<seq<int>>, pushed: seq<nat>) {
    && ShapeOk(s)
    && |own| == |s.next|
    && |free| == |pushed| == LISTS
    && (forall l | 0 <= l < LISTS :: ListOk(s, own, free[l], l))
    && (forall p | 0 <= p < |own| :: own[p].Free? ==> own[p].list < LISTS)
    && (forall l | 0 <= l < LISTS :: s.count[l] == |free[l]| - pushed[l])
    && (forall l | 0 < l < LISTS :: pushed[l] <= |free[l]|)
  }

  /** Hand the pages in `pages` to owner `o`. */
  function Grant<T>(own: seq<Owner<T>>, pages: seq<int>, o: Owner<T>): (r: seq<Owner<T>>)
    ensures |r| == |own|
    ensures forall p | 0 <= p < |own| :: r[p] == if p in pages then o else own[p]
  {
    seq(|own|, p requires 0 <= p < |own| => if p in pages then o else own[p])
  }

  /** Pages in a list without repetition are no more than the region has. */
  lemma {:induction false} NoDupBound(s: seq<int>, n: nat)
    requires NoDup(s) && forall i | 0 <= i < |s| :: 0 <= s[i] < n
    ensures |s| <= n
    decreases n
  {
    if s == [] {
    } else if n - 1 in s {
      var k :| 0 <= k < |s| && s[k] == n - 1;
      var t := s[..k] + s[k + 1..];
      forall i, j | 0 <= i < j < |t| ensures t[i] != t[j] {
        assert s[if i < k then i else i + 1] != s[if j < k then j else j + 1];
      }
      forall i | 0 <= i < |t| ensures 0 <= t[i] < n - 1 {
        assert t[i] == s[if i < k then i else i + 1];
      }
      NoDupBound(t, n - 1);
    } else {
      NoDupBound(s, n - 1);
    }
  }

  lemma ListBound<T>(s: Pool, own: seq<Owner<T>>, f: seq<int>, l: nat)
    requires l < |s.head| && |own| == |s.next| && ListOk(s, own, f, l)
    ensures |f| <= |s.next|
    ensures NoDup(f)
  {
    LinkedNoDup(s.next, f);
    NoDupBound(f, |s.next|);
  }

  /** `count` of a local list is its true length less the uncounted pages. */
  lemma CountIsLength<T>(s: Pool, own: seq<Owner<T>>, free: seq<seq<int>>, pushed: seq<nat>, l: nat)
    requires Inv(s, own, free, pushed) && l < LISTS && pushed[l] <= |free[l]|
    ensures s.count[l] == |free[l]| - pushed[l]
  {
    ListBound(s, own, free[l], l);
  }

  /** A list none of whose pages or links changed is still that list. */
  lemma ListFrame<T>(s: Pool, own: seq<Owner<T>>, s': Pool, own': seq<Owner<T>>, f: seq<int>, l: nat)
    requires l < |s.head| == |s'.head| && |own| == |s.next| == |own'| == |s'.next|
    requires ListOk(s, own, f, l) && s'.head[l] == s.head[l]
    requires forall p | 0 <= p < |own| :: own[p] == Free(l) ==> own'[p] == Free(l) && s'.next[p] == s.next[p]
    requires forall p | 0 <= p < |own| :: own'[p] == Free(l) ==> own[p] == Free(l)
    ensures ListOk(s', own', f, l)
  {
    LinkedFrame(s.next, s'.next, f);
  }

  // ------------------------------------------------------------------- refill

  function RefilledLists(free: seq<seq<int>>, l: nat, k: nat): seq<seq<int>>
    requires 0 < l < |free| && k <= |free[GLOBAL]|
  {
    free[GLOBAL := free[GLOBAL][k..]][l := SpliceAfterHead(free[l], free[GLOBAL][..k])]
  }

  /** The refill is sound unless it meets a local list of exactly one page. */
  predicate RefillSafe(s: Pool, b: Build, l: nat)
    requires ShapeOk(s) && l < LISTS
  {
    b == Repaired || s.head[l] == NIL || s.next[s.head[l]] != NIL || b.wild == NIL
  }

  lemma RefillLast<T>(s: Pool, own: seq<Owner<T>>, free: seq<seq<int>>, pushed: seq<nat>, k: nat)
    requires Inv(s, own, free, pushed) && 0 < k
    ensures IsPage(s, Walk(s.next, s.head[GLOBAL], k - 1)) <==> k <= |free[GLOBAL]|
    ensures k <= |free[GLOBAL]| ==> Walk(s.next, s.head[GLOBAL], k - 1) == free[GLOBAL][k - 1]
  {
    assert ListOk(s, own, free[GLOBAL], GLOBAL);
    WalkLinked(s.next, free[GLOBAL], k - 1);
  }

  /** The links of a refill, apart from ownership: `g` is the global list and `f`
      the local one. */
  lemma RefillLinks(s: Pool, b: Build, f: seq<int>, g: seq<int>, l: nat, k: nat)
    requires ShapeOk(s) && 0 < l < LISTS && 0 < k <= |g| && RefillSafe(s, b, l)
    requires Linked(s.next, f) && Linked(s.next, g)
    requires s.head[GLOBAL] == First(g) && s.head[l] == First(f)
    requires forall i, j | 0 <= i < |f| && 0 <= j < |g| :: f[i] != g[j]
    ensures Walk(s.next, s.head[GLOBAL], k - 1) == g[k - 1]
    ensures Linked(Refill(s, b, l, k).next, g[k..])
    ensures Linked(Refill(s, b, l, k).next, SpliceAfterHead(f, g[..k]))
    ensures Refill(s, b, l, k).head[GLOBAL] == First(g[k..])
    ensures Refill(s, b, l, k).head[l] == First(SpliceAfterHead(f, g[..k]))
  {
    hide Refill, Linked, SpliceAfterHead;
    RestInside(s.next, g);
    WalkLinked(s.next, g, k - 1);
    var cut := s.next[g[k - 1] := NIL];
    LinkedCut(s.next, g, k, cut);
    if f == [] {
      RefillEmpty(s, b, g, l, k);
    } else {
      FirstPages(s.next, f, g, k);
      RefillOnto(s, b, f, g, l, k);
      LinkedFrame(s.next, cut, f);
      LinkedSplice(cut, f, g[..k], Refill(s, b, l, k).next);
      RestStays(s.next, f, g, k, cut, Refill(s, b, l, k).next);
    }
  }

  /** Onto an empty list: the batch is the list. */
  lemma RefillEmpty(s: Pool, b: Build, g: seq<int>, l: nat, k: nat)
    requires ShapeOk(s) && 0 < l < LISTS && 0 < k <= |g| && s.head[l] == NIL
    requires IsPage(s, g[k - 1]) && Walk(s.next, s.head[GLOBAL], k - 1) == g[k - 1] && s.head[GLOBAL] == g[0]
    requires s.next[g[k - 1]] == First(g[k..])
    ensures var r := Refill(s, b, l, k);
      r.next == s.next[g[k - 1] := NIL] && r.head[GLOBAL] == First(g[k..]) && r.head[l] == First(g[..k])
    ensures SpliceAfterHead([], g[..k]) == g[..k]
  {
    hide Walk;
  }

  lemma FirstPages(next: seq<int>, f: seq<int>, g: seq<int>, k: nat)
    requires Linked(next, f) && Linked(next, g) && f != [] && 0 < k <= |g|
    ensures 0 <= f[0] < |next| && 0 <= g[k - 1] < |next| && 0 <= g[0] < |next|
    ensures |f| > 1 ==> next[f[0]] == f[1] != NIL
    ensures |f| == 1 ==> next[f[0]] == NIL
    ensures forall i | 0 <= i < |g| :: 0 <= g[i] < |next|
    ensures forall i | 0 <= i < |f| :: 0 <= f[i] < |next|
  {
  }

  /** Onto a list of at least one page: the batch comes in behind its first page. */
  lemma RefillOnto(s: Pool, b: Build, f: seq<int>, g: seq<int>, l: nat, k: nat)
    requires ShapeOk(s) && 0 < l < LISTS && 0 < k <= |g| && RefillSafe(s, b, l) && f != [] && s.head[l] == f[0]
    requires IsPage(s, f[0]) && IsPage(s, g[k - 1]) && f[0] != g[k - 1]
    requires Walk(s.next, s.head[GLOBAL], k - 1) == g[k - 1] && s.head[GLOBAL] == g[0] && s.next[g[k - 1]] == First(g[k..])
    ensures var r, cut := Refill(s, b, l, k), s.next[g[k - 1] := NIL];
      && r.next == cut[f[0] := g[..k][0]][g[..k][k - 1] := cut[f[0]]]
      && r.head[GLOBAL] == First(g[k..]) && r.head[l] == First(SpliceAfterHead(f, g[..k]))
  {
    hide Walk;
  }

  /** What is left of the global list is not touched. */
  lemma RestStays(next: seq<int>, f: seq<int>, g: seq<int>, k: nat, cut: seq<int>, next': seq<int>)
    requires Linked(next, g) && f != [] && 0 < k <= |g| && 0 <= f[0] < |next| && 0 <= g[k - 1] < |next|
    requires cut == next[g[k - 1] := NIL] && next' == cut[f[0] := g[..k][0]][g[..k][k - 1] := cut[f[0]]]
    requires Linked(cut, g[k..]) && forall j | 0 <= j < |g| :: f[0] != g[j]
    ensures Linked(next', g[k..])
  {
    LinkedNoDup(next, g);
    hide Linked;
    var rest := g[k..];
    forall i | 0 <= i < |rest|
      ensures rest[i] != g[k - 1] && rest[i] != f[0]
    {
      assert rest[i] == g[k + i];
    }
    RestInside(cut, rest);
    LinkedFrame(cut, next', rest);
  }

  lemma RestInside(next: seq<int>, c: seq<int>)
    requires Linked(next, c)
    ensures forall i | 0 <= i < |c| :: 0 <= c[i] < |next|
  {
  }

  /** Invariant bookkeeping shared by the three sections: only lists `a` and `b`
      and pages held by callers change. */
  lemma Rebuild<T>(s: Pool, own: seq<Owner<T>>, free: seq<seq<int>>, pushed: seq<nat>,
                   s': Pool, own': seq<Owner<T>>, free': seq<seq<int>>, pushed': seq<nat>, a: nat, b: nat)
    requires Inv(s, own, free, pushed) && ShapeOk(s') && a < LISTS && b < LISTS
    requires |own'| == |s'.next| == |s.next| && |free'| == |pushed'| == LISTS
    requires forall l | 0 <= l < LISTS && l != a && l != b ::
               free'[l] == free[l] && pushed'[l] == pushed[l] && s'.head[l] == s.head[l] && s'.count[l] == s.count[l]
    requires forall p | 0 <= p < |own| && own[p].Free? && own[p].list != a && own[p].list != b ::
               own'[p] == own[p] && s'.next[p] == s.next[p]
    requires forall p | 0 <= p < |own| && own'[p].Free? && own'[p].list != a && own'[p].list != b :: own'[p] == own[p]
    requires forall l | l == a || l == b :: ListOk(s', own', free'[l], l) && s'.count[l] == |free'[l]| - pushed'[l]
    requires forall l | (l == a || l == b) && l != 0 :: pushed'[l] <= |free'[l]|
    ensures Inv(s', own', free', pushed')
  {
    forall l | 0 <= l < LISTS && l != a && l != b
      ensures ListOk(s', own', free'[l], l)
    {
      assert ListOk(s, own, free[l], l);
      ListFrame(s, own, s', own', free[l], l);
    }
  }

  lemma GrantSplice<T>(own: seq<Owner<T>>, f: seq<int>, c: seq<int>, l: nat)
    requires Holds(own, f, l) && forall i | 0 <= i < |c| :: 0 <= c[i] < |own|
    ensures Holds(Grant(own, c, Free(l)), SpliceAfterHead(f, c), l)
  {
    SpliceMembers(f, c);
    var f', own' := SpliceAfterHead(f, c), Grant(own, c, Free(l));
    forall i | 0 <= i < |f'| ensures 0 <= f'[i] < |own| && own'[f'[i]] == Free(l) {
      assert f'[i] in f';
    }
  }

  lemma GrantTake<T>(own: seq<Owner<T>>, f: seq<int>, k: nat, l: nat, o: Owner<T>)
    requires Holds(own, f, l) && NoDup(f) && k <= |f| && o != Free(l)
    ensures Holds(Grant(own, f[..k], o), f[k..], l)
  {
    var taken, rest := f[..k], f[k..];
    assert f == taken + rest;
    forall i | 0 <= i < |rest| ensures rest[i] !in taken {
      assert rest[i] == f[k + i];
    }
  }

  lemma RefillLists<T>(s: Pool, b: Build, own: seq<Owner<T>>, f: seq<int>, g: seq<int>, l: nat, k: nat)
    requires ShapeOk(s) && |own| == |s.next| && 0 < l < LISTS && 0 < k <= |g| && RefillSafe(s, b, l)
    requires ListOk(s, own, f, l) && ListOk(s, own, g, GLOBAL)
    ensures Walk(s.next, s.head[GLOBAL], k - 1) == g[k - 1]
    ensures ListOk(Refill(s, b, l, k), Grant(own, g[..k], Free(l)), g[k..], GLOBAL)
    ensures ListOk(Refill(s, b, l, k), Grant(own, g[..k], Free(l)), SpliceAfterHead(f, g[..k]), l)
  {
    hide Linked, Refill, SpliceAfterHead, Walk, Holds, First;
    ListsApart(s, own, f, g, l);
    RefillLinks(s, b, f, g, l, k);
    LinkedNoDup(s.next, g);
    GrantTake(own, g, k, GLOBAL, Free(l));
    GlobalPages(own, g);
    GrantSplice(own, f, g[..k], l);
    SameSize(s, b, l, k);
  }

  /** Two lists share no page. */
  lemma ListsApart<T>(s: Pool, own: seq<Owner<T>>, f: seq<int>, g: seq<int>, l: nat)
    requires ShapeOk(s) && |own| == |s.next| && 0 < l < LISTS && ListOk(s, own, f, l) && ListOk(s, own, g, GLOBAL)
    ensures forall i, j | 0 <= i < |f| && 0 <= j < |g| :: f[i] != g[j]
  {
    hide Linked;
  }

  lemma GlobalPages<T>(own: seq<Owner<T>>, g: seq<int>)
    requires Holds(own, g, GLOBAL)
    ensures forall i | 0 <= i < |g| :: 0 <= g[i] < |own|
  {
  }

  lemma SameSize(s: Pool, b: Build, l: nat, k: nat)
    requires ShapeOk(s) && 0 < l < LISTS && 0 < k && IsPage(s, Walk(s.next, s.head[GLOBAL], k - 1))
    ensures |Refill(s, b, l, k).next| == |s.next| && |Refill(s, b, l, k).head| == LISTS
  {
  }

  /** What a refill leaves alone. */
  lemma RefillFrame(s: Pool, b: Build, l: nat, k: nat, last: int)
    requires ShapeOk(s) && 0 < l < LISTS && 0 < k
    requires IsPage(s, last) && last == Walk(s.next, s.head[GLOBAL], k - 1)
    ensures var s' := Refill(s, b, l, k);
      && |s'.next| == |s.next| && |s'.head| == |s'.count| == LISTS
      && (forall m | 0 <= m < LISTS && m != GLOBAL && m != l :: s'.head[m] == s.head[m] && s'.count[m] == s.count[m])
      && s'.count[GLOBAL] == s.count[GLOBAL] - k && s'.count[l] == s.count[l] + k
      && (forall p | 0 <= p < |s.next| && p != last && p != s.head[l] :: s'.next[p] == s.next[p])
  {
  }

  lemma RefillKeeps<T>(s: Pool, b: Build, own: seq<Owner<T>>, free: seq<seq<int>>, pushed: seq<nat>, l: nat, k: nat)
    requires Inv(s, own, free, pushed) && 0 < l < LISTS && 0 < k <= |free[GLOBAL]|
    requires RefillSafe(s, b, l)
    ensures IsPage(s, Walk(s.next, s.head[GLOBAL], k - 1))
    ensures Inv(Refill(s, b, l, k), Grant(own, free[GLOBAL][..k], Free(l)), RefilledLists(free, l, k), pushed)
  {
    var g, f := free[GLOBAL], free[l];
    hide ListOk, Linked, Refill, SpliceAfterHead;
    assert ListOk(s, own, g, GLOBAL) && ListOk(s, own, f, l);
    RefillLists(s, b, own, f, g, l, k);
    RefillFrame(s, b, l, k, g[k - 1]);
    CountIsLength(s, own, free, pushed, l);
    SpliceMembers(f, g[..k]);
    RefillRebuild(s, own, free, pushed, Refill(s, b, l, k), l, k);
  }

  lemma RefillRebuild<T>(s: Pool, own: seq<Owner<T>>, free: seq<seq<int>>, pushed: seq<nat>, s': Pool, l: nat, k: nat)
    requires Inv(s, own, free, pushed) && 0 < l < LISTS && 0 < k <= |free[GLOBAL]|
    requires |s'.next| == |s.next| && |s'.head| == |s'.count| == LISTS
    requires forall m | 0 <= m < LISTS && m != GLOBAL && m != l :: s'.head[m] == s.head[m] && s'.count[m] == s.count[m]
    requires s'.count[GLOBAL] == s.count[GLOBAL] - k && s'.count[l] == s.count[l] + k
    requires forall p | 0 <= p < |s.next| && p != free[GLOBAL][k - 1] && p != s.head[l] :: s'.next[p] == s.next[p]
    requires ListOk(s', Grant(own, free[GLOBAL][..k], Free(l)), free[GLOBAL][k..], GLOBAL)
    requires ListOk(s', Grant(own, free[GLOBAL][..k], Free(l)), SpliceAfterHead(free[l], free[GLOBAL][..k]), l)
    requires |SpliceAfterHead(free[l], free[GLOBAL][..k])| == |free[l]| + k
    ensures Inv(s', Grant(own, free[GLOBAL][..k], Free(l)), RefilledLists(free, l, k), pushed)
  {
    hide Linked, SpliceAfterHead;
    var batch := free[GLOBAL][..k];
    assert ListOk(s, own, free[GLOBAL], GLOBAL) && ListOk(s, own, free[l], l);
    assert forall p | p in batch :: own[p] == Free(GLOBAL);
    assert free[GLOBAL][k - 1] in batch;
    Rebuild(s, own, free, pushed, s', Grant(own, batch, Free(l)), RefilledLists(free, l, k), pushed, GLOBAL, l);
  }

  /** As written, the refill yields the intended list exactly when the local list
      does not hold exactly one page (or the stray word happens to read as
      OFFSET_NULL). */
  lemma RefillExact<T>(s: Pool, wild: int, own: seq<Owner<T>>, free: seq<seq<int>>, pushed: seq<nat>, l: nat, k: nat)
    requires Inv(s, own, free, pushed) && 0 < l < LISTS && 0 < k <= |free[GLOBAL]|
    requires IsPage(s, Walk(s.next, s.head[GLOBAL], k - 1))
    ensures Linked(Refill(s, AsWritten(wild), l, k).next, SpliceAfterHead(free[l], free[GLOBAL][..k]))
            <==> |free[l]| != 1 || wild == NIL
  {
    var b := AsWritten(wild);
    var f, g := free[l], free[GLOBAL];
    assert ListOk(s, own, f, l) && ListOk(s, own, g, GLOBAL);
    if |f| > 1 {
      assert s.next[f[0]] == f[1];
    }
    if |f| != 1 || wild == NIL {
      RefillLinks(s, b, f, g, l, k);
    } else {
      RefillLast(s, own, free, pushed, k);
      var u := SpliceAfterHead(f, g[..k]);
      assert u[|u| - 1] == g[k - 1];
      assert f[0] != g[k - 1];
    }
  }

  // ---------------------------------------------------------------------- pop

  lemma PopList<T>(s: Pool, own: seq<Owner<T>>, f: seq<int>, l: nat, n: nat, t: T)
    requires ShapeOk(s) && |own| == |s.next| && l < LISTS && 0 < n <= |f| && ListOk(s, own, f, l)
    ensures Walk(s.next, s.head[l], n - 1) == f[n - 1]
    ensures ListOk(Pop(s, l, n), Grant(own, f[..n], Held(t)), f[n..], l)
    ensures Linked(Pop(s, l, n).next, f[..n])
  {
    WalkLinked(s.next, f, n - 1);
    LinkedCut(s.next, f, n, Pop(s, l, n).next);
    LinkedNoDup(s.next, f);
    GrantTake(own, f, n, l, Held(t));
  }

  lemma PopKeeps<T>(s: Pool, own: seq<Owner<T>>, free: seq<seq<int>>, pushed: seq<nat>, l: nat, n: nat, t: T)
    requires Inv(s, own, free, pushed) && 0 < l < LISTS && 0 < n <= s.count[l]
    ensures n <= |free[l]|
    ensures IsPage(s, Walk(s.next, s.head[l], n - 1))
    ensures Inv(Pop(s, l, n), Grant(own, free[l][..n], Held(t)), free[l := free[l][n..]], pushed)
    ensures Linked(Pop(s, l, n).next, free[l][..n])
  {
    CountIsLength(s, own, free, pushed, l);
    assert ListOk(s, own, free[l], l);
    PopList(s, own, free[l], l, n, t);
    ListBound(s, own, free[l], l);
    Rebuild(s, own, free, pushed,
            Pop(s, l, n), Grant(own, free[l][..n], Held(t)), free[l := free[l][n..]], pushed, l, l);
  }

  // --------------------------------------------------------------------- push

  /** The lists after `free_pages` put the chain `c` on list `l`. */
  function PushedLists(free: seq<seq<int>>, l: nat, c: seq<int>): seq<seq<int>>
    requires l < |free|
  {
    free[l := SpliceAfterHead(free[l], c)]
  }

  /** What `pushed` becomes: the pages `count` was not raised for. */
  function Uncounted(b: Build, pushed: seq<nat>, l: nat, n: nat): seq<nat>
    requires l < |pushed|
  {
    if b == Repaired then pushed else pushed[l := pushed[l] + n]
  }

  lemma PushList<T>(s: Pool, b: Build, own: seq<Owner<T>>, f: seq<int>, l: nat, c: seq<int>)
    requires ShapeOk(s) && |own| == |s.next| && l < LISTS && c != [] && Linked(s.next, c)
    requires ListOk(s, own, f, l) && forall i | 0 <= i < |c| :: own[c[i]].Held?
    requires b == Repaired || f != []
    ensures Walk(s.next, c[0], |c| - 1) == c[|c| - 1]
    ensures ListOk(Push(s, b, l, c[0], |c|), Grant(own, c, Free(l)), SpliceAfterHead(f, c), l)
  {
    WalkLinked(s.next, c, |c| - 1);
    var s' := Push(s, b, l, c[0], |c|);
    if f != [] {
      LinkedSplice(s.next, f, c, s'.next);
    } else {
      assert s'.next == s.next;
    }
    GrantSplice(own, f, c, l);
  }

  lemma PushFrame(s: Pool, b: Build, l: nat, first: int, n: nat, last: int)
    requires ShapeOk(s) && l < LISTS && 0 < n && IsPage(s, first)
    requires IsPage(s, last) && last == Walk(s.next, first, n - 1)
    ensures var s' := Push(s, b, l, first, n);
      && |s'.next| == |s.next| && |s'.head| == |s'.count| == LISTS
      && (forall m | 0 <= m < LISTS && m != l :: s'.head[m] == s.head[m] && s'.count[m] == s.count[m])
      && s'.count[l] == (if b == Repaired then s.count[l] + n else s.count[l])
      && (forall p | 0 <= p < |s.next| && p != last && p != s.head[l] :: s'.next[p] == s.next[p])
  {
  }

  lemma PushKeeps<T>(s: Pool, b: Build, own: seq<Owner<T>>, free: seq<seq<int>>, pushed: seq<nat>, l: nat, c: seq<int>)
    requires Inv(s, own, free, pushed) && l < LISTS && c != [] && Linked(s.next, c)
    requires forall i | 0 <= i < |c| :: own[c[i]].Held?
    requires b == Repaired || free[l] != []
    ensures IsPage(s, Walk(s.next, c[0], |c| - 1))
    ensures Inv(Push(s, b, l, c[0], |c|), Grant(own, c, Free(l)), PushedLists(free, l, c), Uncounted(b, pushed, l, |c|))
  {
    assert IsPage(s, c[0]) && IsPage(s, c[|c| - 1]);
    hide ListOk, Linked, Push, SpliceAfterHead;
    assert ListOk(s, own, free[l], l);
    PushList(s, b, own, free[l], l, c);
    PushFrame(s, b, l, c[0], |c|, c[|c| - 1]);
    SpliceMembers(free[l], c);
    PushRebuild(s, b, own, free, pushed, Push(s, b, l, c[0], |c|), l, c);
  }

  lemma PushRebuild<T>(s: Pool, b: Build, own: seq<Owner<T>>, free: seq<seq<int>>, pushed: seq<nat>, s': Pool, l: nat, c: seq<int>)
    requires Inv(s, own, free, pushed) && l < LISTS && c != []
    requires forall i | 0 <= i < |c| :: 0 <= c[i] < |own| && own[c[i]].Held?
    requires |s'.next| == |s.next| && |s'.head| == |s'.count| == LISTS
    requires forall m | 0 <= m < LISTS && m != l :: s'.head[m] == s.head[m] && s'.count[m] == s.count[m]
    requires s'.count[l] == if b == Repaired then s.count[l] + |c| else s.count[l]
    requires forall p | 0 <= p < |s.next| && p != c[|c| - 1] && p != s.head[l] :: s'.next[p] == s.next[p]
    requires ListOk(s', Grant(own, c, Free(l)), SpliceAfterHead(free[l], c), l)
    requires |SpliceAfterHead(free[l], c)| == |free[l]| + |c|
    ensures Inv(s', Grant(own, c, Free(l)), PushedLists(free, l, c), Uncounted(b, pushed, l, |c|))
  {
    hide ListOk, Linked, SpliceAfterHead;
    var own', free', pushed' := Grant(own, c, Free(l)), PushedLists(free, l, c), Uncounted(b, pushed, l, |c|);
    HeadOf(s, own, free, pushed, l);
    assert c[|c| - 1] in c;
    assert free'[l] == SpliceAfterHead(free[l], c) && s'.count[l] == |free'[l]| - pushed'[l];
    HeadIn(s', own', free'[l], l);
    forall m | 0 <= m < LISTS && m != l
      ensures free'[m] == free[m] && pushed'[m] == pushed[m]
    {
    }
    Rebuild(s, own, free, pushed, s', own', free', pushed', l, l);
  }

  lemma HeadOf<T>(s: Pool, own: seq<Owner<T>>, free: seq<seq<int>>, pushed: seq<nat>, l: nat)
    requires Inv(s, own, free, pushed) && l < LISTS
    ensures s.head[l] == NIL || (0 <= s.head[l] < |own| && own[s.head[l]] == Free(l))
  {
    assert ListOk(s, own, free[l], l);
  }

  lemma HeadIn<T>(s: Pool, own: seq<Owner<T>>, f: seq<int>, l: nat)
    requires l < |s.head| && |own| == |s.next| && ListOk(s, own, f, l)
    ensures s.head[l] == NIL || 0 <= s.head[l] < |own|
  {
  }

  /** As written, `free_pages` puts its chain on the list exactly when the list is
      not empty; on an empty list the list stays empty and the pages are lost. */
  lemma PushExact<T>(s: Pool, wild: int, own: seq<Owner<T>>, free: seq<seq<int>>, pushed: seq<nat>, l: nat, c: seq<int>)
    requires ShapeOk(s) && l < LISTS && |free| == LISTS && c != [] && IsPage(s, c[0]) && IsPage(s, Walk(s.next, c[0], |c| - 1))
    requires Inv(s, own, free, pushed) && Linked(s.next, c)
    requires forall i | 0 <= i < |c| :: own[c[i]].Held?
    ensures var s' := Push(s, AsWritten(wild), l, c[0], |c|);
      && (Linked(s'.next, SpliceAfterHead(free[l], c)) && s'.head[l] == First(SpliceAfterHead(free[l], c)) <==> free[l] != [])
      && (free[l] == [] ==> s'.head[l] == NIL)
  {
    assert 0 <= c[0];
    hide Linked;
    assert ListOk(s, own, free[l], l);
    if free[l] != [] {
      PushList(s, AsWritten(wild), own, free[l], l, c);
    }
  }

  // ------------------------------------------------------- what sections touch

  /** A section rewrites no link of a page that somebody holds, except, in a push,
      those of the pages handed back. */
  lemma RefillTouches<T>(s: Pool, b: Build, own: seq<Owner<T>>, free: seq<seq<int>>, pushed: seq<nat>, l: nat, k: nat, p: nat)
    requires Inv(s, own, free, pushed) && 0 < l < LISTS && 0 < k <= |free[GLOBAL]| && p < |own|
    ensures IsPage(s, Walk(s.next, s.head[GLOBAL], k - 1))
    ensures own[p].Held? ==> Refill(s, b, l, k).next[p] == s.next[p]
    ensures p in free[GLOBAL][..k] ==> own[p].Free?
  {
    var g, f := free[GLOBAL], free[l];
    assert ListOk(s, own, g, GLOBAL) && ListOk(s, own, f, l);
    WalkLinked(s.next, g, k - 1);
    RefillFrame(s, b, l, k, g[k - 1]);
  }

  lemma PopTouches<T>(s: Pool, own: seq<Owner<T>>, free: seq<seq<int>>, pushed: seq<nat>, l: nat, n: nat, p: nat)
    requires Inv(s, own, free, pushed) && 0 < l < LISTS && 0 < n <= s.count[l] && p < |own|
    ensures n <= |free[l]|
    ensures IsPage(s, Walk(s.next, s.head[l], n - 1))
    ensures own[p].Held? ==> Pop(s, l, n).next[p] == s.next[p]
    ensures p in free[l][..n] ==> own[p] == Free(l)
  {
    assert ListOk(s, own, free[l], l);
    CountIsLength(s, own, free, pushed, l);
    WalkLinked(s.next, free[l], n - 1);
  }

  lemma PushTouches<T>(s: Pool, b: Build, own: seq<Owner<T>>, free: seq<seq<int>>, pushed: seq<nat>, l: nat, c: seq<int>, p: nat)
    requires Inv(s, own, free, pushed) && l < LISTS && c != [] && Linked(s.next, c) && p < |own|
    ensures IsPage(s, Walk(s.next, c[0], |c| - 1))
    ensures own[p].Held? && p !in c ==> Push(s, b, l, c[0], |c|).next[p] == s.next[p]
  {
    assert ListOk(s, own, free[l], l);
    WalkLinked(s.next, c, |c| - 1);
    PushFrame(s, b, l, c[0], |c|, c[|c| - 1]);
  }

  /** Holders may relink the pages they hold and pass them on; the lists stay. */
  lemma HolderChanges<T>(s: Pool, own: seq<Owner<T>>, free: seq<seq<int>>, pushed: seq<nat>, next': seq<int>, own': seq<Owner<T>>)
    requires Inv(s, own, free, pushed) && |next'| == |s.next| == |own'|
    requires forall p | 0 <= p < |own| && own[p].Free? :: own'[p] == own[p] && next'[p] == s.next[p]
    requires forall p | 0 <= p < |own| && own[p].Held? :: own'[p].Held?
    ensures Inv(s.(next := next'), own', free, pushed)
  {
    forall l | 0 <= l < LISTS
      ensures ListOk(s.(next := next'), own', free[l], l)
    {
      assert ListOk(s, own, free[l], l);
      ListFrame(s, own, s.(next := next'), own', free[l], l);
    }
  }

  // ------------------------------------------------------------- conservation

  /** Every page is in exactly one place: with one holder, or at exactly one index
      of exactly one list. */
  lemma EachPageOnce<T>(s: Pool, own: seq<Owner<T>>, free: seq<seq<int>>, pushed: seq<nat>, p: nat)
    requires Inv(s, own, free, pushed) && p < |s.next|
    ensures own[p].Free? ==> own[p].list < LISTS && p in free[own[p].list]
    ensures forall l | 0 <= l < LISTS :: p in free[l] <==> own[p] == Free(l)
    ensures forall l, i, j | 0 <= l < LISTS && 0 <= i < j < |free[l]| :: !(free[l][i] == p && free[l][j] == p)
  {
    forall l | 0 <= l < LISTS
      ensures p in free[l] <==> own[p] == Free(l)
      ensures NoDup(free[l])
    {
      assert ListOk(s, own, free[l], l);
      LinkedNoDup(s.next, free[l]);
    }
  }
}
