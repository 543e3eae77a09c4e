/** The 64-bit `bitmap` of a log entry and the set of positions it marks. */
module Bitmap {
  /** `1ULL << i`, one shift at a time. */
  function Bit(i: nat): bv64 {
    if i == 0 then 1 else Bit(i - 1) << 1
  }

  function Meet(b: bv64, x: bv64): bv64 {
    b & x
  }

  function With(b: bv64, x: bv64): bv64 {
    b | x
  }

  predicate Shares(b: bv64, x: bv64) {
    Meet(b, x) != 0
  }

  /** `entry_invalid_page`. */
  predicate Marked(b: bv64, i: nat) {
    Shares(b, Bit(i))
  }

  /** `bitmap |= 1ULL << pos`. */
  function Mark(b: bv64, i: nat): bv64 {
    With(b, Bit(i))
  }

  /** The word `b` marks exactly the positions in `dead`; entries have at most 64. */
  ghost predicate Represents(b: bv64, dead: set<nat>) {
    && (forall i | i in dead :: i < 64)
    && (forall i: nat | i < 64 :: Marked(b, i) <==> i in dead)
  }

  // -------------------------------------------------------------- one bit each

  lemma ShiftMeets(x: bv64, y: bv64)
    requires x & y == 0
    ensures (x << 1) & (y << 1) == 0
  {
  }

  lemma OddMeets(y: bv64)
    ensures 1 & (y << 1) == 0
  {
  }

  lemma {:induction false} BitsApart(i: nat, j: nat)
    requires i < j
    ensures Bit(i) & Bit(j) == 0
  {
    if i == 0 {
      OddMeets(Bit(j - 1));
    } else {
      BitsApart(i - 1, j - 1);
      ShiftMeets(Bit(i - 1), Bit(j - 1));
    }
  }

  /** Eight shifts at once. */
  lemma Byte(i: nat)
    ensures Bit(i + 8) == Bit(i) << 8
  {
    hide Bit;
    Next(i);
    Next(i + 1);
    Next(i + 2);
    Next(i + 3);
    Next(i + 4);
    Next(i + 5);
    Next(i + 6);
    Next(i + 7);
  }

  lemma Next(i: nat)
    ensures Bit(i + 1) == Bit(i) << 1
  {
  }

  lemma LastBit()
    ensures Bit(64 - 8) == 0x100_0000_0000_0000
  {
    Byte(0);
    Byte(8);
    Byte(16);
    Byte(24);
    Byte(32);
    Byte(40);
    Byte(48);
  }

  /** A bit that has been shifted out does not come back. */
  lemma {:induction false} ZeroStays(i: nat, j: nat)
    requires i <= j && Bit(i) == 0
    ensures Bit(j) == 0
  {
    if i < j {
      ZeroStays(i, j - 1);
    }
  }

  lemma BitSet(i: nat)
    requires i < 64
    ensures Bit(i) != 0
  {
    hide Bit;
    if Bit(i) == 0 {
      ZeroStays(i, 63);
      Next(56);
      Next(57);
      Next(58);
      Next(59);
      Next(60);
      Next(61);
      Next(62);
      LastBit();
    }
  }

  lemma OneBit(i: nat, j: nat)
    requires i < 64 && j < 64
    ensures Shares(Bit(i), Bit(j)) <==> i == j
  {
    hide Bit;
    if i < j {
      BitsApart(i, j);
    } else if j < i {
      BitsApart(j, i);
      Commute(Bit(i), Bit(j));
    } else {
      BitSet(i);
      Idempotent(Bit(i));
    }
  }

  lemma Commute(x: bv64, y: bv64)
    ensures x & y == y & x
  {
  }

  lemma Idempotent(x: bv64)
    ensures x & x == x
  {
  }

  lemma OrShares(b: bv64, x: bv64, y: bv64)
    ensures Shares(With(b, x), y) <==> Shares(b, y) || Shares(x, y)
  {
    hide Meet, With;
    Distribute(b, x, y);
    WithZero(Meet(b, y), Meet(x, y));
  }

  lemma Distribute(b: bv64, x: bv64, y: bv64)
    ensures Meet(With(b, x), y) == With(Meet(b, y), Meet(x, y))
  {
    hide Meet, With;
    Left(b, x, y);
    Right(b, x, y);
    AndOr(b, x, y);
  }

  lemma Left(b: bv64, x: bv64, y: bv64)
    ensures Meet(With(b, x), y) == (b | x) & y
  {
  }

  lemma Right(b: bv64, x: bv64, y: bv64)
    ensures With(Meet(b, y), Meet(x, y)) == (b & y) | (x & y)
  {
  }

  lemma AndOr(b: bv64, x: bv64, y: bv64)
    ensures (b | x) & y == (b & y) | (x & y)
  {
  }

  lemma WithZero(u: bv64, v: bv64)
    ensures With(u, v) == 0 <==> u == 0 && v == 0
  {
  }

  // ------------------------------------------------------------------ marking

  /** A bit is set after a store exactly if it was stored or set before. */
  lemma MarkedMark(b: bv64, i: nat, j: nat)
    requires i < 64 && j < 64
    ensures Marked(Mark(b, i), j) <==> i == j || Marked(b, j)
  {
    hide Bit, Shares, With;
    OneBit(i, j);
    OrShares(b, Bit(i), Bit(j));
  }

  /** Marking a position adds it and nothing else. */
  lemma MarkAdds(b: bv64, dead: set<nat>, i: nat)
    requires Represents(b, dead) && i < 64
    ensures Represents(Mark(b, i), dead + {i})
  {
    hide Marked, Mark;
    forall j: nat | j < 64
      ensures Marked(Mark(b, i), j) <==> j in dead + {i}
    {
      MarkedMark(b, i, j);
    }
  }

  /** The cleared bitmap of a new entry marks nothing. */
  lemma ClearMarksNothing()
    ensures Represents(0, {})
  {
    hide Bit;
    forall i: nat | i < 64 ensures !Marked(0, i) {
      NothingShared(Bit(i));
    }
  }

  lemma NothingShared(x: bv64)
    ensures !Shares(0, x)
  {
  }
}
