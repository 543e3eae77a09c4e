/** The order of the inode list: reads and writes move an inode to the front
    (`list_move`), the collector takes the last one and rotates it to the front
    (src/gc.c:142-145).  `Lists.ListMove` and `Lists.TakeOldest` are proved to be
    `ToFront`. */
module Recency {
  import opened Lists

  /** Inodes are numbers. */
  function IndexOf(s: seq<nat>, x: nat): (k: nat)
    requires x in s
    ensures k < |s| && s[k] == x
  {
    if s[0] == x then 0 else 1 + IndexOf(s[1..], x)
  }

  function ToFront(s: seq<nat>, k: nat): seq<nat>
    requires k < |s|
  {
    [s[k]] + Without(s, k)
  }

  function Rotate(s: seq<nat>): seq<nat> {
    if s == [] then [] else ToFront(s, |s| - 1)
  }

  function Rotations(s: seq<nat>, n: nat): seq<nat> {
    if n == 0 then s else Rotate(Rotations(s, n - 1))
  }

  lemma RotateLast(a: seq<nat>, b: seq<nat>, x: nat)
    ensures Rotate(a + (b + [x])) == [x] + a + b
  {
    var r := a + (b + [x]);
    assert r[|r| - 1] == x && Without(r, |r| - 1) == a + b;
    assert [x] + (a + b) == [x] + a + b;
  }

  lemma Cut(s: seq<nat>, m: nat)
    requires m < |s|
    ensures s[..m + 1] == s[..m] + [s[m]] && s[m..] == [s[m]] + s[m + 1..]
  {
  }

  lemma {:induction false} RotationsAre(s: seq<nat>, n: nat)
    requires n <= |s|
    ensures Rotations(s, n) == s[|s| - n..] + s[..|s| - n]
  {
    var m := |s| - n;
    if n == 0 {
      assert s[|s|..] == [] && s[..|s|] == s;
    } else {
      hide Rotate;
      RotationsAre(s, n - 1);
      Cut(s, m);
      RotateLast(s[m + 1..], s[..m], s[m]);
      calc {
        Rotations(s, n);
        Rotate(s[m + 1..] + (s[..m] + [s[m]]));
        [s[m]] + s[m + 1..] + s[..m];
        s[m..] + s[..m];
      }
    }
  }

  /** `|s|` collections with no access in between take each inode exactly once, the
      least recent first, and restore the order. */
  lemma FullRound(s: seq<nat>, k: nat)
    ensures k < |s| ==> var r := Rotations(s, k); r != [] && r[|r| - 1] == s[|s| - 1 - k]
    ensures Rotations(s, |s|) == s
  {
    RotationsAre(s, |s|);
    if k < |s| {
      RotationsAre(s, k);
      var r := s[|s| - k..] + s[..|s| - k];
      assert r[|r| - 1] == s[|s| - 1 - k];
    }
  }

  // ------------------------------------------------------------- time of last use

  /** The list holds the inodes that have a time, all before `now`, latest first. */
  ghost predicate ByTime(order: seq<nat>, time: map<nat, int>, now: int) {
    && (forall x :: x in order <==> x in time)
    && (forall x | x in time :: time[x] < now)
    && (forall i, j | 0 <= i < j < |order| :: order[i] in time && order[j] in time && time[order[i]] > time[order[j]])
  }

  /** The inode whose time is the earliest. */
  ghost function Oldest(time: map<nat, int>): (x: nat)
    requires time.Keys != {}
    ensures x in time && forall y | y in time :: time[x] <= time[y]
  {
    OldestExists(time, time.Keys);
    var x :| x in time && forall y | y in time :: time[x] <= time[y];
    x
  }

  lemma {:induction false} OldestExists(time: map<nat, int>, s: set<nat>)
    requires s != {} && s <= time.Keys
    ensures exists x :: x in s && forall y | y in s :: time[x] <= time[y]
  {
    var z :| z in s;
    if s != {z} {
      OldestExists(time, s - {z});
      var x :| x in s - {z} && forall y | y in s - {z} :: time[x] <= time[y];
      var best := if time[z] < time[x] then z else x;
      assert best in s && forall y | y in s :: time[best] <= time[y];
    } else {
      assert forall y | y in s :: time[z] <= time[y];
    }
  }

  lemma ToFrontAt(s: seq<nat>, k: nat)
    requires k < |s|
    ensures |ToFront(s, k)| == |s|
    ensures forall i | 0 < i < |s| :: ToFront(s, k)[i] == s[if i <= k then i - 1 else i]
    ensures forall x :: x in ToFront(s, k) <==> x in s
  {
    var r := ToFront(s, k);
    forall x | x in s ensures x in r {
      var i :| 0 <= i < |s| && s[i] == x;
      assert x == r[if i == k then 0 else if i < k then i + 1 else i];
    }
  }

  /** The inode at position `k` is used now and goes to the front. */
  lemma FrontIsNewest(order: seq<nat>, time: map<nat, int>, now: int, k: nat)
    requires ByTime(order, time, now) && k < |order|
    ensures ByTime(ToFront(order, k), time[order[k] := now], now + 1)
  {
    hide ToFront;
    ToFrontAt(order, k);
    var r := ToFront(order, k);
    FirstAtFront(order, k);
    forall i | 0 < i < |r| ensures r[i] != order[k] && r[i] in time {
      assert time[order[if i <= k then i - 1 else i]] != time[order[k]];
    }
  }

  lemma FirstAtFront(s: seq<nat>, k: nat)
    requires k < |s|
    ensures |ToFront(s, k)| > 0 && ToFront(s, k)[0] == s[k]
  {
  }

  /** A new inode comes in at the front. */
  lemma NewIsNewest(order: seq<nat>, time: map<nat, int>, now: int, x: nat)
    requires ByTime(order, time, now) && x !in order
    ensures ByTime([x] + order, time[x := now], now + 1)
  {
    var r := [x] + order;
    forall i | 0 < i < |r| ensures r[i] == order[i - 1] && r[i] != x {
    }
  }

  lemma TimePasses(order: seq<nat>, time: map<nat, int>, now: int)
    requires ByTime(order, time, now)
    ensures ByTime(order, time, now + 1)
  {
  }

  /** The last inode is the least recently used one. */
  lemma LastIsOldest(order: seq<nat>, time: map<nat, int>, now: int)
    requires ByTime(order, time, now) && order != []
    ensures time.Keys != {} && order[|order| - 1] == Oldest(time)
  {
    var last := order[|order| - 1];
    assert last in order;
    assert last in time;
    assert Oldest(time) in order;
    var i :| 0 <= i < |order| && order[i] == Oldest(time);
  }
}
