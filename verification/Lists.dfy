/** The intrusive circular doubly linked list of include/list.h.  A ring is given
    by the sequence of its nodes, the head first; each operation is proved to be
    the sequence operation it stands for.  What a `modifies` clause does not name
    is unchanged. */
module Lists {
  class ListHead {
    var next: ListHead?
    var prev: ListHead?

    constructor ()
      ensures next == null && prev == null
    {
      next, prev := null, null;
    }
  }

  ghost predicate Distinct(c: seq<ListHead>) {
    forall i, j | 0 <= i < j < |c| :: c[i] != c[j]
  }

  /** `next` runs through `c` and back to its start, and `prev` is its inverse. */
  ghost predicate Ring(c: seq<ListHead>)
    reads c
  {
    && c != [] && Distinct(c)
    && (forall i, j | 0 <= i < j < |c| && j == i + 1 :: c[i].next == c[j] && c[j].prev == c[i])
    && c[|c| - 1].next == c[0] && c[0].prev == c[|c| - 1]
  }

  function At(c: seq<ListHead>, k: nat): ListHead
    requires k < |c|
  {
    c[k]
  }

  function After<T>(c: seq<T>, k: nat): nat {
    if k + 1 < |c| then k + 1 else 0
  }

  function Before<T>(c: seq<T>, k: nat): int {
    if k > 0 then k - 1 else |c| - 1
  }

  /** The neighbours of node `k` are on the ring. */
  lemma Neighbours(c: seq<ListHead>, k: nat)
    requires Ring(c) && k < |c|
    ensures c[k].next == c[After(c, k)]
    ensures c[k].prev == c[Before(c, k)]
  {
    if k + 1 < |c| {
      assert c[k].next == c[k + 1];
    }
    if k > 0 {
      assert c[k].prev == c[k - 1];
    }
  }

  method InitListHead(list: ListHead)
    modifies list
    ensures Ring([list])
  {
    list.next := list;
    list.prev := list;
  }

  method InsertBetween(node: ListHead, prev: ListHead, next: ListHead)
    modifies next`prev, node, prev`next
    ensures node != prev && node != next ==>
              && node.next == next && node.prev == prev && prev.next == node && next.prev == node
              && (prev != next ==> next.next == old(next.next) && prev.prev == old(prev.prev))
  {
    next.prev := node;
    node.next := next;
    node.prev := prev;
    prev.next := node;
  }

  method ListAdd(node: ListHead, head: ListHead, ghost s: seq<ListHead>)
    requires Ring([head] + s) && node !in [head] + s
    modifies node, head`next, At([head] + s, After([head] + s, 0))`prev
    ensures Ring([head, node] + s)
  {
    ghost var c := [head] + s;
    assert head == c[0];
    assert head.next == c[if s == [] then 0 else 1];
    InsertBetween(node, head, head.next);
    ghost var d := [head, node] + s;
    assert forall i | 2 <= i < |d| :: d[i] == c[i - 1];
    assert forall i, j | 0 <= i < j < |d| && j == i + 1 :: d[i].next == d[j] && d[j].prev == d[i] by {
      forall i, j | 0 <= i < j < |d| && j == i + 1 ensures d[i].next == d[j] && d[j].prev == d[i] {
        if i >= 2 { assert old(c[i - 1].next) == c[j - 1] && old(c[j - 1].prev) == c[i - 1]; }
      }
    }
  }

  method ListAddTail(node: ListHead, head: ListHead, ghost s: seq<ListHead>)
    requires Ring([head] + s) && node !in [head] + s
    modifies node, head`prev, At([head] + s, |s|)`next
    ensures Ring([head] + s + [node])
  {
    ghost var c := [head] + s;
    assert head == c[0];
    assert head.prev == c[|s|];
    InsertBetween(node, head.prev, head);
    ghost var d := [head] + s + [node];
    assert d[..|c|] == c;
    forall i, j | 0 <= i < j < |d| && j == i + 1 ensures d[i].next == d[j] && d[j].prev == d[i] {
      if j < |c| { assert old(c[i].next) == c[j] && old(c[j].prev) == c[i]; }
    }
  }

  /** The ring without its node `k`. */
  function Without<T>(s: seq<T>, k: nat): seq<T>
    requires k < |s|
  {
    s[..k] + s[k + 1..]
  }

  method Unlink(prev: ListHead, next: ListHead)
    modifies next`prev, prev`next
    ensures next.prev == prev && prev.next == next
  {
    next.prev := prev;
    prev.next := next;
  }

  /** The part `list_del`, `list_del_init` and the moves share. */
  method Detach(entry: ListHead, ghost c: seq<ListHead>, ghost k: nat)
    requires Ring(c) && 0 < k < |c| && c[k] == entry
    modifies At(c, k - 1)`next, At(c, After(c, k))`prev
    ensures Ring(Without(c, k))
  {
    assert c[k - 1].next == c[k] && c[k].prev == c[k - 1];
    assert k + 1 < |c| ==> c[k].next == c[k + 1];
    Unlink(entry.prev, entry.next);
    ghost var d := Without(c, k);
    assert forall i | 0 <= i < |d| :: d[i] == c[if i < k then i else i + 1];
    forall i, j | 0 <= i < j < |d| && j == i + 1 ensures d[i].next == d[j] && d[j].prev == d[i] {
      if j < k {
        assert old(c[i].next) == c[j] && old(c[j].prev) == c[i];
      } else if i >= k {
        assert old(c[i + 1].next) == c[j + 1] && old(c[j + 1].prev) == c[i + 1];
      }
    }
  }

  method ListDel(entry: ListHead, ghost head: ListHead, ghost s: seq<ListHead>, ghost k: nat)
    requires Ring([head] + s) && k < |s| && s[k] == entry
    modifies entry, At([head] + s, k)`next, At([head] + s, After([head] + s, k + 1))`prev
    ensures Ring([head] + Without(s, k))
    ensures entry.next == null && entry.prev == null
  {
    ghost var c := [head] + s;
    Detach(entry, c, k + 1);
    assert Without(c, k + 1) == [head] + Without(s, k);
    entry.next := null;
    entry.prev := null;
  }

  method ListDelInit(entry: ListHead, ghost head: ListHead, ghost s: seq<ListHead>, ghost k: nat)
    requires Ring([head] + s) && k < |s| && s[k] == entry
    modifies entry, At([head] + s, k)`next, At([head] + s, After([head] + s, k + 1))`prev
    ensures Ring([head] + Without(s, k))
    ensures Ring([entry])
  {
    ghost var c := [head] + s;
    Detach(entry, c, k + 1);
    assert Without(c, k + 1) == [head] + Without(s, k);
    InitListHead(entry);
  }

  method ListMove(entry: ListHead, head: ListHead, ghost s: seq<ListHead>, ghost k: nat)
    requires Ring([head] + s) && k < |s| && s[k] == entry
    modifies [head] + s
    ensures Ring([head, entry] + Without(s, k))
  {
    ghost var c := [head] + s;
    Neighbours(c, k + 1);
    Detach(entry, c, k + 1);
    assert Without(c, k + 1) == [head] + Without(s, k);
    assert head.next in c by {
      Neighbours(Without(c, k + 1), 0);
    }
    ListAdd(entry, head, Without(s, k));
  }

  method ListMoveTail(entry: ListHead, head: ListHead, ghost s: seq<ListHead>, ghost k: nat)
    requires Ring([head] + s) && k < |s| && s[k] == entry
    modifies [head] + s
    ensures Ring([head] + Without(s, k) + [entry])
  {
    ghost var c := [head] + s;
    Neighbours(c, k + 1);
    Detach(entry, c, k + 1);
    assert Without(c, k + 1) == [head] + Without(s, k);
    assert head.prev in c by {
      Neighbours(Without(c, k + 1), 0);
    }
    ListAddTail(entry, head, Without(s, k));
  }

  method ListEmpty(head: ListHead, ghost s: seq<ListHead>) returns (empty: bool)
    requires Ring([head] + s)
    ensures empty <==> s == []
  {
    ghost var c := [head] + s;
    assert c[0] == head;
    assert s != [] ==> c[0].next == c[1];
    empty := head.next == head;
  }

  /** `__list_splice`: the nodes of `list`, without `list` itself, go in between
      `prev` and `next`. */
  method SpliceBetween(list: ListHead, prev: ListHead, next: ListHead)
    requires list.next != null && list.prev != null
    modifies list.next`prev, prev`next, list.prev`next, next`prev
    ensures old(list.next) != next ==> old(list.next).prev == prev
    ensures old(list.prev) != prev ==> prev.next == old(list.next)
    ensures old(list.prev).next == next && next.prev == old(list.prev)
  {
    var first := list.next;
    var last := list.prev;
    first.prev := prev;
    prev.next := first;
    last.next := next;
    next.prev := last;
  }

  method ListSplice(list: ListHead, head: ListHead, ghost s: seq<ListHead>, ghost t: seq<ListHead>)
    requires Ring([list] + s) && Ring([head] + t)
    requires forall x | x in [list] + s :: x !in [head] + t
    modifies [list] + s, [head] + t
    ensures Ring([head] + s + t)
    ensures list.next == old(list.next) && list.prev == old(list.prev)
  {
    ghost var c, d := [list] + s, [head] + t;
    var empty := ListEmpty(list, s);
    if !empty {
      Neighbours(c, 0);
      Neighbours(d, 0);
      ListApart(list, head, s, t);
      assert s[0] in c && s[|s| - 1] in c;
      SpliceBetween(list, head, head.next);
      SpliceRing(Rings(list, head, s, t));
    } else {
      assert [head] + s + t == d;
    }
  }

  /** Two rings, `[list] + s` and `[head] + t`. */
  datatype Rings = Rings(list: ListHead, head: ListHead, s: seq<ListHead>, t: seq<ListHead>)

  /** After the four stores of a splice at the front of `[head] + t`. */
  twostate lemma SpliceRing(r: Rings)
    requires var Rings(list, head, s, t) := r;
      && s != [] && old(Ring([list] + s)) && old(Ring([head] + t))
      && (forall x | x in [list] + s :: x !in [head] + t)
      && (forall x | x in [head] + s + t :: x.prev == old(x.prev) || x == s[0] || x == (if t == [] then head else t[0]))
      && (forall x | x in [head] + s + t :: x.next == old(x.next) || x == head || x == s[|s| - 1])
      && s[0].prev == head && head.next == s[0]
      && s[|s| - 1].next == (if t == [] then head else t[0]) && (if t == [] then head else t[0]).prev == s[|s| - 1]
    ensures Ring([r.head] + r.s + r.t)
  {
    var Rings(list, head, s, t) := r;
    var c, d, e := [list] + s, [head] + t, [head] + s + t;
    assert forall i | 1 <= i <= |s| :: e[i] == c[i];
    assert forall i | |s| < i < |e| :: e[i] == d[i - |s|];
    assert s[0] == e[1] && s[|s| - 1] == e[|s|] && (t != [] ==> t[0] == e[|s| + 1]);
    assert Distinct(e) by {
      forall i, j | 0 <= i < j < |e| ensures e[i] != e[j] {
        if 1 <= i && j <= |s| {
          assert c[i] != c[j];
        } else if |s| < i {
          assert d[i - |s|] != d[j - |s|];
        } else if i == 0 && j > |s| {
          assert d[0] != d[j - |s|];
        } else if i == 0 {
          assert c[j] in [list] + s;
        } else {
          assert c[i] in [list] + s && d[j - |s|] in [head] + t;
        }
      }
    }
    forall i, j | 0 <= i < j < |e| && j == i + 1 ensures e[i].next == e[j] && e[j].prev == e[i] {
      assert e[i] in e && e[j] in e;
      if 1 <= i && j <= |s| {
        assert old(c[i].next) == c[j] && old(c[j].prev) == c[i];
      } else if i > |s| {
        assert old(d[i - |s|].next) == d[j - |s|] && old(d[j - |s|].prev) == d[i - |s|];
      }
    }
    assert e[|e| - 1] in e && e[0] in e;
    if t != [] {
      assert e[|e| - 1] == d[|d| - 1];
      assert e[|e| - 1] != e[0] && e[|e| - 1] != e[|s|] && e[0] != e[1] && e[0] != e[|s| + 1];
    }
  }

  lemma ListApart(list: ListHead, head: ListHead, s: seq<ListHead>, t: seq<ListHead>)
    requires Ring([list] + s)
    requires forall x | x in [list] + s :: x !in [head] + t
    ensures list !in s && list != head && list !in t
  {
    var c := [list] + s;
    assert forall i | 0 <= i < |s| :: c[i + 1] == s[i];
    assert c[0] == list && list in c;
    assert list !in [head] + t;
  }

  method ListSpliceInit(list: ListHead, head: ListHead, ghost s: seq<ListHead>, ghost t: seq<ListHead>)
    requires Ring([list] + s) && Ring([head] + t)
    requires forall x | x in [list] + s :: x !in [head] + t
    modifies [list] + s, [head] + t
    ensures Ring([head] + s + t)
    ensures Ring([list])
  {
    var empty := ListEmpty(list, s);
    ListApart(list, head, s, t);
    ListSplice(list, head, s, t);
    if !empty {
      InitListHead(list);
    } else {
      assert [list] + s == [list];
    }
  }

  lemma RotateRing(c: seq<ListHead>, k: nat)
    requires Ring(c) && k < |c|
    ensures Ring(c[k..] + c[..k])
  {
    var d := c[k..] + c[..k];
    var m := |c| - k;
    assert forall i | 0 <= i < m :: d[i] == c[i + k];
    assert forall i | m <= i < |d| :: d[i] == c[i - m];
    forall i, j | 0 <= i < j < |d| && j == i + 1 ensures d[i].next == d[j] && d[j].prev == d[i] {
      if j < m {
        assert c[i + k].next == c[j + k] && c[j + k].prev == c[i + k];
      } else if i >= m {
        assert c[i - m].next == c[j - m] && c[j - m].prev == c[i - m];
      }
    }
    if k > 0 {
      assert c[k - 1].next == c[k] && c[k].prev == c[k - 1];
    }
  }

  /** The ring with its last node first. */
  lemma LastFirst(head: ListHead, t: seq<ListHead>)
    requires Ring([head] + t)
    ensures var d := [head] + t; Ring([d[|t|]] + d[..|t|])
  {
    var d := [head] + t;
    RotateRing(d, |t|);
    assert d[|t|..] + d[..|t|] == [d[|t|]] + d[..|t|];
  }

  lemma LastBack(head: ListHead, s: seq<ListHead>, t: seq<ListHead>)
    requires s != []
    requires var d := [head] + t; Ring([d[|t|]] + s + d[..|t|])
    ensures Ring([head] + t + s)
  {
    var d := [head] + t;
    var last, rest := d[|t|], d[..|t|];
    var e := [last] + s + rest;
    if t == [] {
      assert e == [head] + t + s;
    } else {
      RotateRing(e, 1 + |s|);
      assert e[1 + |s|..] == rest && e[..1 + |s|] == [last] + s;
      assert rest + [last] == d;
      assert e[1 + |s|..] + e[..1 + |s|] == [head] + t + s;
    }
  }

  /** `list_splice_tail` is a splice in front of the head read as the last node. */
  method ListSpliceTail(list: ListHead, head: ListHead, ghost s: seq<ListHead>, ghost t: seq<ListHead>)
    requires Ring([list] + s) && Ring([head] + t)
    requires forall x | x in [list] + s :: x !in [head] + t
    modifies [list] + s, [head] + t
    ensures Ring([head] + t + s)
    ensures list.next == old(list.next) && list.prev == old(list.prev)
  {
    ghost var c, d := [list] + s, [head] + t;
    ghost var last, rest := d[|t|], d[..|t|];
    var empty := ListEmpty(list, s);
    if !empty {
      Neighbours(c, 0);
      Neighbours(d, 0);
      LastFirst(head, t);
      ListApart(list, head, s, t);
      assert s[0] in c && s[|s| - 1] in c;
      SpliceBetween(list, head.prev, head);
      assert [last] + rest == [d[|t|]] + d[..|t|];
      SpliceRing(Rings(list, last, s, rest));
      LastBack(head, s, t);
    } else {
      assert [head] + t + s == d;
    }
  }

  method ListSpliceTailInit(list: ListHead, head: ListHead, ghost s: seq<ListHead>, ghost t: seq<ListHead>)
    requires Ring([list] + s) && Ring([head] + t)
    requires forall x | x in [list] + s :: x !in [head] + t
    modifies [list] + s, [head] + t
    ensures Ring([head] + t + s)
    ensures Ring([list])
  {
    var empty := ListEmpty(list, s);
    ListApart(list, head, s, t);
    ListSpliceTail(list, head, s, t);
    if !empty {
      InitListHead(list);
    } else {
      assert [list] + s == [list];
    }
  }

  /** The head of `start_gc_task`: take the least recently used inode and rotate it
      to the front (src/gc.c:138-145). */
  method TakeOldest(head: ListHead, ghost s: seq<ListHead>) returns (entry: ListHead?)
    requires Ring([head] + s)
    modifies [head] + s
    ensures s == [] ==> entry == null && Ring([head] + s)
    ensures s != [] ==> entry == s[|s| - 1] && Ring([head, s[|s| - 1]] + s[..|s| - 1])
  {
    var empty := ListEmpty(head, s);
    if empty {
      return null;
    }
    ghost var c, k := [head] + s, |s| - 1;
    assert c[0] == head && head.prev == c[|s|] == s[k];
    entry := head.prev;
    Neighbours(c, |s|);
    ListDel(entry, head, s, k);
    assert Without(s, k) == s[..k];
    assert entry !in [head] + s[..k] by {
      assert forall i | 0 <= i < |s| :: c[i] == ([head] + s[..k])[i];
    }
    assert head.next in c by {
      Neighbours([head] + s[..k], 0);
    }
    ListAdd(entry, head, s[..k]);
  }
}
