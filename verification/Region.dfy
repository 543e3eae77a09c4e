/** The NVM region as the allocator and the file layer see it: one record of
    header words, one page of bytes and, for a log page, its entries, per page. */
module Region {
  import opened Chains
  import opened PageLists
  import opened Layout
  import opened LogModel
  import opened Format

  type Page = p: seq<bv8> | |p| == PAGE_SIZE witness seq(PAGE_SIZE, _ => 0)

  /** What an inode uses a page for.  `Pending` pages belong to an entry of the log page
      being collected, `Loose` pages to no entry yet, or no longer. */
  datatype Role = LogRole | DataRole(pos: Pos) | Pending(pos: Pos) | Loose

  datatype Use = Use(ino: nat, role: Role)

  function NonePushed(): seq<nat> {
    seq(LISTS, _ => 0)
  }

  /** The words of the region that belong to pages, with the holders. */
  datatype Mem = Mem(next: seq<int>, hdr: seq<Counters>, back: seq<Pos>, bytes: seq<Page>,
                     slot: seq<seq<Entry>>, own: seq<Owner<Use>>)

  ghost predicate MemOk(m: Mem) {
    && |m.own| == |m.hdr| == |m.back| == |m.bytes| == |m.slot| == |m.next|
    && (forall p | 0 <= p < |m.slot| :: |m.slot[p]| == SLOTS)
  }

  class Nvm {
    // header words, by page
    var next: seq<int> // next_offset
    var hdr: seq<Counters>
    var back: seq<Pos> // log_entry
    // page contents, seen as data or as log entries
    var bytes: seq<Page>
    var slot: seq<seq<Entry>>
    // the page lists
    var head: seq<int>
    var count: seq<int>

    ghost var own: seq<Owner<Use>>
    ghost var free: seq<seq<int>>

    ghost function Lists(): Pool
      reads this
    {
      Pool(next, head, count)
    }

    ghost function M(): Mem
      reads this
    {
      Mem(next, hdr, back, bytes, slot, own)
    }

    ghost predicate Valid()
      reads this
    {
      && Inv(Lists(), own, free, NonePushed())
      && MemOk(M())
      && |head| == |count| == LISTS
    }

    /** Pages on the global list. */
    ghost function Room(): nat
      reads this`free
    {
      if |free| == LISTS then |free[GLOBAL]| else 0
    }

    /** The global list is too short for a refill, and some CPU's list is shorter than the
        `n` pages asked for. */
    ghost predicate Short(n: nat)
      reads this`free
    {
      Room() < FILL_MAX && exists l :: 0 < l < |free| && |free[l]| < n
    }

    /** `n` pages on the global list, nothing anywhere else. */
    constructor (n: nat)
      requires 0 < n <= NUM_PAGES
      ensures Valid() && |next| == n
      ensures forall p | 0 <= p < n :: own[p] == Free(GLOBAL)
      ensures Room() == n && free == FormattedLists(n) && (Short(1) <==> n < FILL_MAX)
      ensures |hdr| == |own| == n && forall p | 0 <= p < n :: hdr[p] == Counters(0, 0, 0, 0)
    {
      var pool := Formatted(n);
      next, head, count := pool.next, pool.head, pool.count;
      hdr := seq(n, _ => Counters(0, 0, 0, 0));
      back := seq(n, _ => Pos(NIL, 0));
      bytes := seq(n, _ => seq(PAGE_SIZE, _ => 0));
      slot := seq(n, _ => seq(SLOTS, _ => Entry(NIL, 0, 0, 0, 0, 0, 0)));
      own := seq(n, p => Free(GLOBAL));
      free := FormattedLists(n);
      FormattedOk<Use>(n);
      assert |FormattedLists(n)[1]| == 0;
    }

    /** `get_cpuid`: any CPU. */
    method GetCpuId() returns (cpu: nat)
      ensures cpu < CPUS
    {
      var c: nat :| c < CPUS;
      cpu := c;
    }

    /** `fill_local_page_list`; `ok` is false where the code would walk off the end
        of the global list. */
    method FillLocalPageList(b: Build, l: nat) returns (ok: bool)
      requires ShapeOk(Lists()) && 0 < l < LISTS
      modifies this`next, this`head, this`count
      ensures ok <==> IsPage(old(Lists()), Walk(old(next), old(head[GLOBAL]), FILL_MAX - 1))
      ensures ok ==> Lists() == Refill(old(Lists()), b, l, FILL_MAX)
      ensures !ok ==> Lists() == old(Lists())
    {
      var node := head[GLOBAL];
      var first := node;
      if !(0 <= node < |next|) {
        WalkNil(next, node, FILL_MAX - 1);
        return false;
      }
      var i := 0;
      while i < FILL_MAX - 1
        invariant 0 <= i <= FILL_MAX - 1
        invariant 0 <= node < |next| && node == Walk(next, first, i)
        invariant Lists() == old(Lists())
      {
        node := next[node];
        i := i + 1;
        if !(0 <= node < |next|) {
          WalkSplit(next, first, i, FILL_MAX - 1 - i);
          WalkNil(next, node, FILL_MAX - 1 - i);
          return false;
        }
      }
      head := head[GLOBAL := next[node]];
      next := next[node := NIL];
      if head[l] == NIL {
        head := head[l := first];
      } else {
        var h := head[l];
        var second := if next[h] == NIL && b.AsWritten? then b.wild else next[h];
        next := next[h := first];
        next := next[node := second];
      }
      count := count[GLOBAL := count[GLOBAL] - FILL_MAX];
      count := count[l := count[l] + FILL_MAX];
      return true;
    }

    /** `free_pages`: `l` is the list the pages went to, a CPU's or, when that one
        is long, the global list. */
    method FreePages(b: Build, first: int, n: nat) returns (l: nat, cpu: nat)
      requires ShapeOk(Lists()) && 0 < n && IsPage(Lists(), first)
      requires IsPage(Lists(), Walk(next, first, n - 1))
      modifies this`next, this`head, this`count
      ensures l < LISTS && Lists() == Push(old(Lists()), b, l, first, n)
      ensures cpu < CPUS && |old(count)| == LISTS && l == if old(count)[cpu + 1] <= 512 then cpu + 1 else 0
    {
      cpu := GetCpuId();
      l := cpu + 1;
      if count[l] > FILL_MAX {
        l := GLOBAL;
      }
      var tail := first;
      var i := 1;
      while i < n
        invariant 1 <= i <= n
        invariant tail == Walk(next, first, i - 1) && 0 <= tail < |next|
        invariant Lists() == old(Lists())
      {
        WalkStays(next, first, i, n - 1);
        tail := next[tail];
        i := i + 1;
      }
      var h := head[l];
      if h == NIL {
        if b.AsWritten? {
          next := next[tail := b.wild];
        } else {
          next := next[tail := NIL];
          head := head[l := first];
        }
      } else {
        var after := next[h];
        next := next[h := first];
        next := next[tail := after];
      }
      if b == Repaired {
        count := count[l := count[l] + n];
      }
    }

    /** `alloc_free_pages` for inode `ino`. */
    method AllocPages(n: nat, ghost ino: nat) returns (ok: bool, first: int, ghost c: seq<int>)
      requires Valid() && 0 < n <= MAX_PAGES
      modifies this`next, this`head, this`count, this`own, this`free
      ensures Valid() && |next| == old(|next|)
      ensures forall p | 0 <= p < |own| && old(own[p]).Held? :: own[p] == old(own[p]) && next[p] == old(next[p])
      ensures forall p | 0 <= p < |own| && old(own[p]).Free? :: own[p].Free? || (ok && p in c)
      ensures ok ==> |c| == n && Linked(next, c) && first == c[0]
      ensures ok ==> forall i | 0 <= i < n :: old(own[c[i]]).Free? && own[c[i]] == Held(Use(ino, Loose))
      ensures !ok ==> Short(n) && old(Short(n))
      ensures Room() + FILL_MAX >= old(Room())
    {
      var cpu := GetCpuId();
      ok, first, c := AllocOn(cpu, n, ino);
    }

    /** `alloc_free_pages` on CPU `cpu`, in the repaired build; `ok` is false where a
        refill would walk off the end of the global list. */
    method AllocOn(cpu: nat, n: nat, ghost ino: nat) returns (ok: bool, first: int, ghost c: seq<int>)
      requires Valid() && cpu < CPUS && 0 < n <= MAX_PAGES
      modifies this`next, this`head, this`count, this`own, this`free
      ensures Valid() && |next| == old(|next|)
      ensures forall p | 0 <= p < |own| && old(own[p]).Held? :: own[p] == old(own[p]) && next[p] == old(next[p])
      ensures forall p | 0 <= p < |own| && old(own[p]).Free? :: own[p].Free? || (ok && p in c)
      ensures ok ==> |c| == n && Linked(next, c) && first == c[0]
      ensures ok ==> forall i | 0 <= i < n :: old(own[c[i]]).Free? && own[c[i]] == Held(Use(ino, Loose))
      ensures !ok ==> Short(n) && old(Short(n))
      ensures Room() + FILL_MAX >= old(Room())
      ensures ok ==> |old(free)| == LISTS && first == FirstFree(old(free), cpu) && TookFront(old(free), free, cpu + 1, n)
      ensures |old(free)| == LISTS && (|old(free)[cpu + 1]| >= n ==> ok)
    {
      hide Inv, Pop, Walk, RefilledLists, FirstFree, TookFront;
      var l := cpu + 1;
      c := [];
      first := NIL;
      CountsOk(Lists(), own, free, l);
      ok := FillUp(cpu, n);
      if ok {
        ghost var f := free;
        first, c := CutPages(l, n, ino);
        TakenFront(old(free), f, free, cpu, n);
      }
    }

    /** The first half: refill the local list until it has `n` pages, which takes one
        refill at most. */
    method FillUp(cpu: nat, n: nat) returns (ok: bool)
      requires Valid() && cpu < CPUS && 0 < n <= MAX_PAGES
      modifies this`next, this`head, this`count, this`own, this`free
      ensures Valid() && |next| == old(|next|)
      ensures forall p | 0 <= p < |own| && old(own[p]).Held? :: own[p] == old(own[p]) && next[p] == old(next[p])
      ensures forall p | 0 <= p < |own| && old(own[p]).Free? :: own[p].Free?
      ensures if ok then n <= count[cpu + 1] else Short(n) && old(Short(n))
      ensures |old(free)| == LISTS && (free == old(free) || Refilled(old(free), free, cpu + 1, n))
      ensures |old(free)[cpu + 1]| >= n ==> ok && free == old(free)
    {
      hide Inv, Refill, Walk, RefilledLists;
      var l := cpu + 1;
      CountsOk(Lists(), own, free, l);
      while count[l] == 0 || count[l] < n
        invariant Valid() && |next| == old(|next|) && |free| == |old(free)| == LISTS
        invariant forall p | 0 <= p < |own| && old(own[p]).Held? :: own[p] == old(own[p]) && next[p] == old(next[p])
        invariant forall p | 0 <= p < |own| && old(own[p]).Free? :: own[p].Free?
        invariant 0 <= count[l] == |free[l]| && (free == old(free) || (count[l] >= n && Refilled(old(free), free, l, n)))
        decreases n - count[l]
      {
        ghost var s, o, f := Lists(), own, free;
        CountsOk(s, o, f, l);
        RefillLast(s, o, f, NonePushed(), FILL_MAX);
        ok := FillLocalPageList(Repaired, l);
        if !ok {
          assert |free[l]| < n;
          return;
        }
        own, free := Grant(own, free[GLOBAL][..FILL_MAX], Free(l)), RefilledLists(free, l, FILL_MAX);
        RefillKeeps(s, Repaired, o, f, NonePushed(), l, FILL_MAX);
        RefillFrame(s, Repaired, l, FILL_MAX, Walk(s.next, s.head[GLOBAL], FILL_MAX - 1));
        CountsOk(Lists(), own, free, l);
        forall p: nat | p < |o|
          ensures o[p].Held? ==> own[p] == o[p] && next[p] == s.next[p]
          ensures o[p].Free? ==> own[p].Free?
        {
          RefillTouches(s, Repaired, o, f, NonePushed(), l, FILL_MAX, p);
        }
      }
      ok := true;
    }

    /** The second half of `alloc_free_pages`: cut `n` pages off list `l`. */
    method CutPages(l: nat, n: nat, ghost ino: nat) returns (first: int, ghost c: seq<int>)
      requires Valid() && 0 < l < LISTS && 0 < n <= count[l]
      modifies this`next, this`head, this`count, this`own, this`free
      ensures Valid() && |next| == old(|next|)
      ensures forall p | 0 <= p < |own| && old(own[p]).Held? :: own[p] == old(own[p]) && next[p] == old(next[p])
      ensures forall p | 0 <= p < |own| && old(own[p]).Free? :: own[p].Free? || p in c
      ensures |c| == n && Linked(next, c) && first == c[0]
      ensures forall i | 0 <= i < n :: old(own[c[i]]).Free? && own[c[i]] == Held(Use(ino, Loose))
      ensures |old(free)| == LISTS && n <= |old(free[l])| && c == old(free[l])[..n] && free == old(free)[l := old(free[l])[n..]]
    {
      hide Inv, Pop, Linked;
      ghost var s, o, f := Lists(), own, free;
      CountsOk(s, o, f, l);
      PopKeeps(s, o, f, NonePushed(), l, n, Use(ino, Loose));
      first := head[l];
      WalkStays(next, first, 0, n - 1);
      var node := first;
      var i := 0;
      while i < n - 1
        invariant 0 <= i <= n - 1 && node == Walk(next, first, i) && 0 <= node < |next|
        invariant Lists() == s && own == o && free == f
      {
        WalkStays(next, first, i + 1, n - 1);
        node := next[node];
        i := i + 1;
      }
      head := head[l := next[node]];
      next := next[node := NIL];
      count := count[l := count[l] - n];
      c := f[l][..n];
      own, free := Grant(own, c, Held(Use(ino, Loose))), free[l := f[l][n..]];
      PopIs(s, Lists(), l, n, node);
      ListPages(s, o, f, l);
      forall p: nat | p < |o|
        ensures o[p].Held? ==> own[p] == o[p] && next[p] == s.next[p]
      {
        PopTouches(s, o, f, NonePushed(), l, n, p);
      }
    }

    /** Give the chain `c` back through `free_pages`. */
    method ReleasePages(first: int, n: nat, ghost c: seq<int>) returns (ghost l: nat)
      requires Valid() && c != [] && Linked(next, c) && |c| == n && first == c[0]
      requires forall i | 0 <= i < n :: own[c[i]].Held?
      modifies this`next, this`head, this`count, this`own, this`free
      ensures Valid() && |next| == old(|next|)
      ensures forall p | 0 <= p < |own| :: if p in c then own[p].Free? else own[p] == old(own[p])
      ensures forall p | 0 <= p < |own| && old(own[p]).Held? && p !in c :: next[p] == old(next[p])
      ensures Room() >= old(Room()) && l < LISTS == |old(free)| && free == PushedLists(old(free), l, c)
      ensures l == GLOBAL <==> Room() > old(Room())
      ensures if l == GLOBAL then exists k :: 0 < k < LISTS && |old(free)[k]| > 512 else |old(free)[l]| <= 512
    {
      hide Inv, Push, Linked;
      ghost var s, o, f := Lists(), own, free;
      PushKeepsAll(s, o, f, c);
      var list, cpu := FreePages(Repaired, first, n);
      l := list;
      CountsOk(s, o, f, cpu + 1);
      own, free := Grant(own, c, Free(l)), PushedLists(free, l, c);
      PushKeeps(s, Repaired, o, f, NonePushed(), l, c);
      PushFrame(s, Repaired, l, c[0], |c|, Walk(s.next, c[0], |c| - 1));
      SpliceMembers(f[l], c);
      forall p: nat | p < |o|
        ensures o[p].Held? && p !in c ==> next[p] == s.next[p]
      {
        PushTouches(s, Repaired, o, f, NonePushed(), l, c, p);
      }
    }
  }

  /** The page `alloc_free_pages` hands out first on CPU `cpu`. */
  function FirstFree(free: seq<seq<int>>, cpu: nat): int
    requires |free| == LISTS && cpu < CPUS
  {
    if free[cpu + 1] != [] then First(free[cpu + 1]) else First(free[GLOBAL])
  }

  /** A list shorter than `n` was refilled. */
  ghost predicate Refilled(free: seq<seq<int>>, free': seq<seq<int>>, l: nat, n: nat) {
    && |free| == LISTS && 0 < l < LISTS && |free[l]| < n && FILL_MAX <= |free[GLOBAL]|
    && free' == RefilledLists(free, l, FILL_MAX)
  }

  /** Where `n` pages came from: the front of the local list, or that of the global one
      where the local list was empty. */
  ghost predicate TookFront(free: seq<seq<int>>, free': seq<seq<int>>, l: nat, n: nat) {
    && |free| == |free'| == LISTS && 0 < l < LISTS
    && (|free[l]| >= n ==> free' == free[l := free[l][n..]])
    && (free[l] == [] && n > 0 ==>
          && n <= FILL_MAX <= |free[GLOBAL]|
          && free'[l] == free[GLOBAL][n..FILL_MAX] && free'[GLOBAL] == free[GLOBAL][FILL_MAX..])
  }

  lemma TakenFront(free: seq<seq<int>>, mid: seq<seq<int>>, free': seq<seq<int>>, cpu: nat, n: nat)
    requires |free| == |mid| == LISTS && cpu < CPUS && 0 < n <= MAX_PAGES && n <= |mid[cpu + 1]|
    requires mid == free || Refilled(free, mid, cpu + 1, n)
    requires free' == mid[cpu + 1 := mid[cpu + 1][n..]]
    ensures TookFront(free, free', cpu + 1, n) && FirstFree(free, cpu) == mid[cpu + 1][0]
    ensures |free'[GLOBAL]| + FILL_MAX >= |free[GLOBAL]|
  {
    var l := cpu + 1;
    if free[l] == [] && mid != free {
      assert free[GLOBAL][..FILL_MAX][n..] == free[GLOBAL][n..FILL_MAX];
    }
  }

  lemma PushKeepsAll(s: Pool, own: seq<Owner<Use>>, free: seq<seq<int>>, c: seq<int>)
    requires Inv(s, own, free, NonePushed()) && c != [] && Linked(s.next, c)
    ensures ShapeOk(s) && IsPage(s, c[0]) && IsPage(s, Walk(s.next, c[0], |c| - 1))
    ensures |own| == |s.next| && |free| == LISTS
  {
    WalkLinked(s.next, c, |c| - 1);
  }

  lemma ListPages(s: Pool, own: seq<Owner<Use>>, free: seq<seq<int>>, l: nat)
    requires Inv(s, own, free, NonePushed()) && l < LISTS
    ensures s.head[l] == First(free[l])
    ensures forall i | 0 <= i < |free[l]| :: 0 <= free[l][i] < |own| && own[free[l][i]] == Free(l)
  {
    assert ListOk(s, own, free[l], l);
  }

  lemma CountsOk(s: Pool, own: seq<Owner<Use>>, free: seq<seq<int>>, l: nat)
    requires Inv(s, own, free, NonePushed()) && 0 < l < LISTS
    ensures ShapeOk(s) && |own| == |s.next| && |free| == LISTS
    ensures s.count[l] == |free[l]|
  {
  }

  lemma PopIs(s: Pool, s': Pool, l: nat, n: nat, node: int)
    requires ShapeOk(s) && l < LISTS && 0 < n
    requires node == Walk(s.next, s.head[l], n - 1) && IsPage(s, node)
    requires s' == Pool(s.next[node := NIL], s.head[l := s.next[node]], s.count[l := s.count[l] - n])
    ensures s' == Pop(s, l, n)
  {
  }

  lemma {:induction false} WalkNil(next: seq<int>, p: int, n: nat)
    requires !(0 <= p < |next|)
    ensures !(0 <= Walk(next, p, n) < |next|)
  {
    if n > 0 {
      WalkNil(next, p, n - 1);
    }
  }
}
