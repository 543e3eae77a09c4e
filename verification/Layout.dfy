/** Byte layout of the NVM region: the address translation of src/addr.c, and the
    rounding that finds a log entry's own page. */
module Layout {
  const PAGE_SIZE := 4096
  const HEADER_SIZE := 40 // sizeof(list_node_t)
  const STRIDE := PAGE_SIZE + HEADER_SIZE // ATFS_PAGE_SIZE
  const FREE_SPACE := 28 * PAGE_SIZE // first byte of page 0
  const NVM_SIZE := 0x4_0000_0000
  const NUM_PAGES := (NVM_SIZE - FREE_SPACE) / STRIDE
  const ENTRY_SIZE := 48 // sizeof(struct file_log_entry)
  const SLOTS := 85 // entries a log page takes
  const OFFSET_NULL := 0xffff_ffff_ffff_ffff

  /** The NVM offset of page `p`. */
  function PageOff(p: nat): nat {
    FREE_SPACE + p * STRIDE
  }

  /** `get_nvm_page_node_addr` without the base: where the header of the page at
      `off` lies. */
  function NodeOff(off: nat): nat {
    off + PAGE_SIZE
  }

  /** The NVM offset of entry `slot` of log page `p`. */
  function EntryOff(p: nat, slot: nat): nat {
    PageOff(p) + slot * ENTRY_SIZE
  }

  /** The rounding in `entry2log_page`, `get_log_entry`, `next_log_page` and
      `start_gc_task`. */
  function RoundToPage(off: nat): nat
    requires FREE_SPACE <= off
  {
    FREE_SPACE + (off - FREE_SPACE) / STRIDE * STRIDE
  }

  /** `is_last_entry`. */
  predicate IsLastEntry(tail: nat)
    requires FREE_SPACE <= tail
  {
    (tail - FREE_SPACE) % STRIDE + ENTRY_SIZE > PAGE_SIZE
  }

  lemma DivByStride(p: nat, r: nat)
    requires r < STRIDE
    ensures (p * STRIDE + r) / STRIDE == p
    ensures (p * STRIDE + r) % STRIDE == r
  {
  }

  /** Rounding takes every byte of a page or its header back to that page. */
  lemma RoundIsOwnPage(p: nat, r: nat)
    requires r < STRIDE
    ensures RoundToPage(PageOff(p) + r) == PageOff(p)
  {
    DivByStride(p, r);
  }

  /** Every entry, and every tail a log page can have, including the one left by
      its last entry, rounds to its own page. */
  lemma TailRoundsToOwnPage(p: nat, slot: nat)
    requires slot <= SLOTS
    ensures RoundToPage(EntryOff(p, slot)) == PageOff(p)
  {
    RoundIsOwnPage(p, slot * ENTRY_SIZE);
  }

  /** A log page is full exactly after `SLOTS` entries. */
  lemma LastEntryIffFull(p: nat, slot: nat)
    requires slot <= SLOTS
    ensures IsLastEntry(EntryOff(p, slot)) <==> slot == SLOTS
  {
    DivByStride(p, slot * ENTRY_SIZE);
  }

  /** Entries lie inside the data part of their page and do not overlap. */
  lemma EntriesDisjoint(p: nat, s: nat, q: nat, t: nat)
    requires s < SLOTS && t < SLOTS && (p != q || s != t)
    ensures PageOff(p) <= EntryOff(p, s) && EntryOff(p, s) + ENTRY_SIZE <= NodeOff(PageOff(p))
    ensures EntryOff(p, s) + ENTRY_SIZE <= EntryOff(q, t) || EntryOff(q, t) + ENTRY_SIZE <= EntryOff(p, s)
  {
    if p < q {
      assert (p + 1) * STRIDE <= q * STRIDE;
    } else if q < p {
      assert (q + 1) * STRIDE <= p * STRIDE;
    }
  }

  /** Pages with their headers are disjoint, above the reserved area, inside the
      region, and no further page would fit. */
  lemma PagesFit(p: nat, q: nat)
    requires p < NUM_PAGES
    ensures FREE_SPACE <= PageOff(p) && NodeOff(PageOff(p)) + HEADER_SIZE <= NVM_SIZE
    ensures p < q ==> NodeOff(PageOff(p)) + HEADER_SIZE <= PageOff(q)
    ensures PageOff(NUM_PAGES) + STRIDE > NVM_SIZE
    ensures PageOff(p) != OFFSET_NULL
  {
    assert (p + 1) * STRIDE <= NUM_PAGES * STRIDE;
    if p < q {
      assert (p + 1) * STRIDE <= q * STRIDE;
    }
  }
}

/** `kernel_page_list_init` up to the point where the global list is complete
    (src/super.c:45-58), over the two header words it writes. */
module Format {
  import opened Chains
  import opened PageLists
  import opened Layout

  /** The page a link word names. */
  function PageAt(off: int): int {
    if FREE_SPACE <= off < OFFSET_NULL then (off - FREE_SPACE) / STRIDE else NIL
  }

  /** The chain the loop builds: from the last page down to page 0. */
  function Down(n: nat): seq<int> {
    seq(n, i => n - 1 - i)
  }

  class Headers {
    var offset: array<int>
    var nextOffset: array<int>
    var head: int
    var count: int

    constructor (n: nat)
      ensures offset.Length == nextOffset.Length == n
      ensures fresh(offset) && fresh(nextOffset) && offset != nextOffset
    {
      offset := new int[n];
      nextOffset := new int[n];
      head, count := 0, 0;
    }

    method BuildGlobalList()
      requires offset != nextOffset && offset.Length == nextOffset.Length == NUM_PAGES
      modifies this, offset, nextOffset
      ensures offset == old(offset) && nextOffset == old(nextOffset)
      ensures forall p | 0 <= p < NUM_PAGES :: offset[p] == PageOff(p)
      ensures count == NUM_PAGES
      ensures head == PageOff(NUM_PAGES - 1)
      ensures forall p | 0 <= p < NUM_PAGES :: nextOffset[p] == if p == 0 then OFFSET_NULL else PageOff(p - 1)
    {
      var prev := NIL;
      count := NUM_PAGES;
      var i := 0;
      while i < NUM_PAGES
        invariant 0 <= i <= NUM_PAGES && prev == i - 1
        invariant offset == old(offset) && nextOffset == old(nextOffset) && count == NUM_PAGES
        invariant forall p | 0 <= p < i :: offset[p] == PageOff(p)
        invariant forall p | 0 <= p < i :: nextOffset[p] == if p == 0 then OFFSET_NULL else PageOff(p - 1)
      {
        offset[i] := FREE_SPACE + i * STRIDE;
        if prev == NIL {
          nextOffset[i] := OFFSET_NULL;
        } else {
          nextOffset[i] := offset[prev];
        }
        prev := i;
        i := i + 1;
      }
      head := offset[prev];
    }
  }

  /** The links the loop leaves, read as page numbers. */
  function FormattedLinks(n: nat): seq<int> {
    seq(n, p => p - 1)
  }

  /** The words `BuildGlobalList` writes decode to `FormattedLinks`. */
  lemma LinksDecode(n: nat, p: nat)
    requires p < n <= NUM_PAGES
    ensures PageAt(if p == 0 then OFFSET_NULL else PageOff(p - 1)) == FormattedLinks(n)[p]
    ensures PageAt(PageOff(p)) == p
  {
    PagesFit(p, p);
    DivByStride(p, 0);
    if p > 0 {
      PagesFit(p - 1, p);
      DivByStride(p - 1, 0);
    }
  }

  /** The pool after initialisation: everything on the global list, the local lists
      empty. */
  function Formatted(n: nat): Pool
    requires 0 < n
  {
    Pool(FormattedLinks(n), seq(LISTS, l => if l == GLOBAL then n - 1 else NIL), seq(LISTS, l => if l == GLOBAL then n else 0))
  }

  function FormattedLists(n: nat): seq<seq<int>> {
    seq(LISTS, l => if l == GLOBAL then Down(n) else [])
  }

  /** The initial chain visits every page exactly once, so the allocator starts in
      its invariant, with every page free. */
  lemma FormattedOk<T>(n: nat)
    requires 0 < n
    ensures Inv(Formatted(n), seq(n, p => Owner<T>.Free(GLOBAL)), FormattedLists(n), seq(LISTS, l => 0))
    ensures forall p | 0 <= p < n :: p in Down(n)
    ensures NoDup(Down(n)) && |Down(n)| == n
  {
    var s, own, f := Formatted(n), seq(n, p => Owner<T>.Free(GLOBAL)), Down(n);
    forall p | 0 <= p < n ensures p in f {
      assert f[n - 1 - p] == p;
    }
    assert ListOk(s, own, f, GLOBAL);
    LinkedNoDup(s.next, f);
    forall l | 0 < l < LISTS ensures ListOk(s, own, [], l) {
    }
  }
}
