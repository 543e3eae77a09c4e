/** Singly linked page chains threaded through the `next_offset` field of the
    page headers.  Pages are named by number; `NIL` stands for OFFSET_NULL. */
module Chains {
  const NIL: int := -1

  /** The sequence `s` is the whole chain that starts at `First(s)`. */
  ghost predicate Linked(next: seq<int>, s: seq<int>) {
    && (forall i | 0 <= i < |s| :: 0 <= s[i] < |next|)
    && (forall i, j | 0 <= i < j < |s| && j == i + 1 :: next[s[i]] == s[j])
    && (s != [] ==> next[s[|s| - 1]] == NIL)
  }

  function First(s: seq<int>): int {
    if s == [] then NIL else s[0]
  }

  ghost predicate NoDup(s: seq<int>) {
    forall i, j | 0 <= i < j < |s| :: s[i] != s[j]
  }

  /** One pointer step; stepping off the end stays at `NIL`. */
  function Follow(next: seq<int>, p: int): int {
    if 0 <= p < |next| then next[p] else NIL
  }

  /** `n` pointer steps from `p`. */
  function Walk(next: seq<int>, p: int, n: nat): int {
    if n == 0 then p else Follow(next, Walk(next, p, n - 1))
  }

  lemma {:induction false} WalkLinked(next: seq<int>, s: seq<int>, n: nat)
    requires Linked(next, s)
    ensures Walk(next, First(s), n) == if n < |s| then s[n] else NIL
  {
    if n == 0 {
    } else {
      WalkLinked(next, s, n - 1);
      if n < |s| {
        assert next[s[n - 1]] == s[n];
      }
    }
  }

  lemma {:induction false} WalkSplit(next: seq<int>, p: int, i: nat, k: nat)
    ensures Walk(next, p, i + k) == Walk(next, Walk(next, p, i), k)
  {
    if k > 0 {
      WalkSplit(next, p, i, k - 1);
    }
  }

  /** A walk that ends on a page was on a page all along. */
  lemma {:induction false} WalkStays(next: seq<int>, p: int, i: nat, n: nat)
    requires i <= n && 0 <= Walk(next, p, n) < |next|
    ensures 0 <= Walk(next, p, i) < |next|
    decreases n - i
  {
    if i < n {
      WalkStays(next, p, i + 1, n);
    }
  }

  /** A chain is determined by the links and its first page. */
  lemma {:induction false} LinkedUnique(next: seq<int>, s: seq<int>, t: seq<int>)
    requires Linked(next, s) && Linked(next, t) && First(s) == First(t)
    ensures s == t
  {
    var k := if |s| < |t| then |s| else |t|;
    forall n: nat | n < k
      ensures s[n] == t[n]
    {
      WalkLinked(next, s, n);
      WalkLinked(next, t, n);
    }
    WalkLinked(next, s, k);
    WalkLinked(next, t, k);
    assert |s| == |t|;
  }

  /** A chain that ends is acyclic: no page occurs in it twice. */
  lemma {:induction false} LinkedNoDup(next: seq<int>, s: seq<int>)
    requires Linked(next, s)
    ensures NoDup(s)
  {
    forall i, j | 0 <= i < j < |s|
      ensures s[i] != s[j]
    {
      if s[i] == s[j] {
        LinkedSuffix(next, s, i);
        LinkedSuffix(next, s, j);
        LinkedUnique(next, s[i..], s[j..]);
        assert false;
      }
    }
  }

  lemma LinkedSuffix(next: seq<int>, s: seq<int>, i: nat)
    requires Linked(next, s) && i <= |s|
    ensures Linked(next, s[i..])
  {
    var t := s[i..];
    forall a, b | 0 <= a < b < |t| && b == a + 1
      ensures next[t[a]] == t[b]
    {
      assert next[s[i + a]] == s[i + b];
    }
  }

  /** Only the links of its own pages matter to a chain. */
  lemma LinkedFrame(next: seq<int>, next': seq<int>, s: seq<int>)
    requires Linked(next, s) && |next'| == |next|
    requires forall i | 0 <= i < |s| :: next'[s[i]] == next[s[i]]
    ensures Linked(next', s)
  {
    forall a, b | 0 <= a < b < |s| && b == a + 1
      ensures next'[s[a]] == s[b]
    {
      assert next[s[a]] == s[b];
    }
  }

  /** Cutting the link out of page `k - 1` leaves two chains. */
  lemma LinkedCut(next: seq<int>, s: seq<int>, k: nat, next': seq<int>)
    requires Linked(next, s) && 0 < k <= |s|
    requires next' == next[s[k - 1] := NIL]
    ensures Linked(next', s[..k])
    ensures Linked(next', s[k..])
    ensures next[s[k - 1]] == First(s[k..])
  {
    LinkedNoDup(next, s);
    var a, b := s[..k], s[k..];
    forall i, j | 0 <= i < j < |a| && j == i + 1
      ensures next'[a[i]] == a[j]
    {
      assert next[s[i]] == s[j];
      assert s[i] != s[k - 1];
    }
    LinkedSuffix(next, s, k);
    forall i | 0 <= i < |b|
      ensures next'[b[i]] == next[b[i]]
    {
      assert b[i] == s[k + i];
    }
    LinkedFrame(next, next', b);
    if k < |s| {
      assert next[s[k - 1]] == s[k];
    }
  }

  /** Pointing the last page of `s` at the first page of `t` joins the chains. */
  lemma LinkedJoin(next: seq<int>, s: seq<int>, t: seq<int>, next': seq<int>)
    requires Linked(next, s) && Linked(next, t) && s != []
    requires forall i, j | 0 <= i < |s| && 0 <= j < |t| :: s[i] != t[j]
    requires next' == next[s[|s| - 1] := First(t)]
    ensures Linked(next', s + t)
  {
    LinkedNoDup(next, s);
    var u := s + t;
    forall i, j | 0 <= i < j < |u| && j == i + 1
      ensures next'[u[i]] == u[j]
    {
      if j < |s| {
        assert next[s[i]] == s[j];
        assert s[i] != s[|s| - 1];
      } else if i >= |s| {
        assert next[t[i - |s|]] == t[j - |s|];
        assert t[i - |s|] != s[|s| - 1];
      }
    }
    if t != [] {
      assert u[|u| - 1] == t[|t| - 1];
      assert t[|t| - 1] != s[|s| - 1];
    }
  }

  /** Splicing chain `c` in after the first page of `s`, as the free lists and
      the collector's free chain do. */
  function SpliceAfterHead(s: seq<int>, c: seq<int>): seq<int> {
    if s == [] then c else [s[0]] + c + s[1..]
  }

  lemma SpliceMembers(s: seq<int>, c: seq<int>)
    ensures |SpliceAfterHead(s, c)| == |s| + |c|
    ensures forall p :: p in SpliceAfterHead(s, c) <==> p in s || p in c
  {
    if s != [] {
      assert s == [s[0]] + s[1..];
    }
  }

  lemma LinkedSplice(next: seq<int>, s: seq<int>, c: seq<int>, next': seq<int>)
    requires Linked(next, s) && Linked(next, c) && s != [] && c != []
    requires forall i, j | 0 <= i < |s| && 0 <= j < |c| :: s[i] != c[j]
    requires next' == next[s[0] := c[0]][c[|c| - 1] := next[s[0]]]
    ensures Linked(next', SpliceAfterHead(s, c))
  {
    LinkedNoDup(next, s);
    LinkedNoDup(next, c);
    var u := SpliceAfterHead(s, c);
    forall i, j | 0 <= i < j < |u| && j == i + 1
      ensures next'[u[i]] == u[j]
    {
      if 0 < i < |c| {
        assert next[c[i - 1]] == c[j - 1];
        assert c[i - 1] != c[|c| - 1];
      } else if i == |c| {
        assert u[i] == c[|c| - 1];
        assert next[s[0]] == s[1];
      } else if i > |c| {
        assert u[i] == s[i - |c|];
        assert next[s[i - |c|]] == s[j - |c|];
      }
    }
    if |s| > 1 {
      assert u[|u| - 1] == s[|s| - 1];
    }
  }
}
