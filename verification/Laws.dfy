/** What the calls of the flat file promise one another: seeks add up, a positioned read is
    a seek and a read, a positioned write a seek, a write and a seek back, consecutive
    reads and writes follow each other.  The origins of a seek and its error number are
    written out. */
module Laws {
  import opened Layout
  import opened LogModel
  import opened WriteModel
  import opened FileSpec

  // ------------------------------------------------------------------------- seeks

  /** Asking for the position answers it and changes nothing. */
  lemma TellAnswersPosition(f: File)
    requires f.pos < 0x8000_0000_0000_0000
    ensures ReplyOf(f, Seek(0, 1)) == Number(f.pos) && After(f, Seek(0, 1)) == f
  {
    WordFits(f.pos);
  }

  /** A seek from the start goes to the offset, whatever the position was, and answers it;
      a negative offset is the word that is as much below 2^64. */
  lemma SeekFromStart(f: File, offset: int)
    requires -0x8000_0000_0000_0000 <= offset < 0x8000_0000_0000_0000
    ensures ReplyOf(f, Seek(offset, 0)) == Number(offset)
    ensures After(f, Seek(offset, 0)) == f.(pos := if offset < 0 then offset + 0x1_0000_0000_0000_0000 else offset)
  {
  }

  /** Two relative seeks are one by the sum, in 64-bit arithmetic, and inside the range the
      position moves by just that. */
  lemma SeeksAddUp(f: File, a: int, b: int)
    ensures After(After(f, Seek(a, 1)), Seek(b, 1)) == After(f, Seek(a + b, 1))
    ensures 0 <= f.pos + a < 0x8000_0000_0000_0000 ==>
              After(f, Seek(a, 1)) == f.(pos := f.pos + a) && ReplyOf(f, Seek(a, 1)) == Number(f.pos + a)
  {
    var w := (f.pos + a) % U64_SPAN;
    ModAdd(f.pos + a, b);
  }

  lemma ModAdd(x: int, b: int)
    ensures Word(Word(x) + b) == Word(x + b)
  {
    var q := x / U64_SPAN;
    assert x == q * U64_SPAN + Word(x);
    var r := (Word(x) + b) / U64_SPAN;
    assert x + b == (q + r) * U64_SPAN + Word(Word(x) + b);
    DivUnique(x + b, q + r, Word(Word(x) + b));
  }

  lemma DivUnique(x: int, q: int, w: nat)
    requires x == q * U64_SPAN + w && w < U64_SPAN
    ensures Word(x) == w
  {
  }

  /** A seek to the end answers the length, and a write there appends. */
  lemma SeekEndAppends(f: File, buf: seq<bv8>)
    requires |f.data| < 0x8000_0000_0000_0000
    ensures ReplyOf(f, Seek(0, 2)) == Number(|f.data|)
    ensures After(f, Seek(0, 2)) == f.(pos := |f.data|)
    ensures After(After(f, Seek(0, 2)), Write(buf)).data == f.data + buf
    ensures After(After(f, Seek(0, 2)), Write(buf)).pos == |f.data + buf|
  {
    WordFits(|f.data|);
    if buf != [] {
      assert f.data[..|f.data|] == f.data;
      assert Splice(f.data, |f.data|, buf) == f.data + buf;
    }
  }

  /** From the end, like from the position of the end. */
  lemma SeekFromEnd(f: File, offset: int)
    ensures After(f, Seek(offset, 2)) == After(f.(pos := |f.data|), Seek(offset, 1))
    ensures ReplyOf(f, Seek(offset, 2)) == ReplyOf(f.(pos := |f.data|), Seek(offset, 1))
  {
  }

  /** Any other origin is an error, and the file stays. */
  lemma OtherOrigin(f: File, offset: int, whence: int)
    requires whence < 0 || whence > 2
    ensures ReplyOf(f, Seek(offset, whence)) == Number(22) && After(f, Seek(offset, whence)) == f
  {
  }

  // ------------------------------------------------------------------------- reads

  /** A read inside the file gives the bytes at the position and moves behind them; past
      the end it gives -1, and moves as well. */
  lemma ReadMoves(f: File, cnt: nat)
    requires f.pos + cnt < 0x1_0000_0000_0000_0000
    ensures ReplyOf(f, Read(cnt)) == if f.pos + cnt <= |f.data| then Bytes(f.data[f.pos..f.pos + cnt]) else Number(-1)
    ensures After(f, Read(cnt)) == f.(pos := f.pos + cnt)
  {
    hide ReadAt;
    WordFits(f.pos + cnt);
    ReadIsSlice(f.data, f.pos, cnt);
  }

  /** Two reads inside the file give consecutive parts, which together are what one read
      gives. */
  lemma ReadsFollow(f: File, n: nat, m: nat)
    requires f.pos + n + m <= |f.data| && |f.data| < 0x1_0000_0000_0000_0000
    ensures ReplyOf(f, Read(n)) == Bytes(f.data[f.pos..f.pos + n])
    ensures ReplyOf(After(f, Read(n)), Read(m)) == Bytes(f.data[f.pos + n..f.pos + n + m])
    ensures ReplyOf(f, Read(n + m)) == Bytes(ReplyOf(f, Read(n)).data + ReplyOf(After(f, Read(n)), Read(m)).data)
    ensures After(After(f, Read(n)), Read(m)) == After(f, Read(n + m))
  {
    hide ReplyOf, After;
    ReadMoves(f, n);
    ReadMoves(f, n + m);
    ReadMoves(After(f, Read(n)), m);
    assert f.data[f.pos..f.pos + n + m] == f.data[f.pos..f.pos + n] + f.data[f.pos + n..f.pos + n + m];
  }

  /** Where the end wraps, the test compares what is left of it: the read succeeds and goes
      on at the start of the file. */
  lemma ReadWraps(f: File, cnt: nat, off: nat)
    requires off < 0x1_0000_0000_0000_0000 && cnt < 0x1_0000_0000_0000_0000 && |f.data| < 0x1_0000_0000_0000_0000
    requires 0x1_0000_0000_0000_0000 <= off + cnt
    ensures var left, r := off + cnt - 0x1_0000_0000_0000_0000, ReplyOf(f, Pread(cnt, off));
      if left > |f.data| then r == Number(-1)
      else r.Bytes? && |r.data| == cnt && r.data[cnt - left..] == f.data[..left]
           && forall i | 0 <= i < cnt - left :: r.data[i] == if off + i < |f.data| then f.data[off + i] else 0
  {
    var left, r := off + cnt - U64_SPAN, ReplyOf(f, Pread(cnt, off));
    DivUnique(off + cnt, 1, left);
    if left <= |f.data| {
      forall i | 0 <= i < cnt - left
        ensures r.data[i] == At(f.data, off + i)
      {
        WordFits(off + i);
        assert r.data[i] == At(f.data, Word(off + i));
      }
      forall i | 0 <= i < left
        ensures r.data[cnt - left..][i] == f.data[..left][i]
      {
        DivUnique(off + (cnt - left + i), 1, i);
        assert r.data[cnt - left + i] == At(f.data, Word(off + (cnt - left + i)));
      }
    }
  }

  /** A positioned read inside the file gives the bytes at its offset, wherever the position
      is; past the end it gives -1; the position stays. */
  lemma PreadIsSlice(f: File, cnt: nat, off: nat)
    requires off + cnt < 0x1_0000_0000_0000_0000
    ensures ReplyOf(f, Pread(cnt, off)) == if off + cnt <= |f.data| then Bytes(f.data[off..off + cnt]) else Number(-1)
    ensures After(f, Pread(cnt, off)) == f
  {
    hide ReadAt;
    ReadIsSlice(f.data, off, cnt);
  }

  /** It answers what a seek there and a read answer. */
  lemma PreadIsSeekRead(f: File, cnt: nat, off: nat)
    requires off < 0x8000_0000_0000_0000
    ensures ReplyOf(f, Pread(cnt, off)) == ReplyOf(After(f, Seek(off, 0)), Read(cnt))
  {
    hide ReadAt;
    WordFits(off);
  }

  // ------------------------------------------------------------------------ writes

  lemma SpliceTwice(data: seq<bv8>, off: nat, a: seq<bv8>, b: seq<bv8>)
    requires a != [] && b != []
    ensures Splice(Splice(data, off, a), off + |a|, b) == Splice(data, off, a + b)
  {
    hide Splice;
    var one, two := Splice(data, off, a), Splice(data, off, a + b);
    var both := Splice(one, off + |a|, b);
    SpliceAt(data, off, a, 0);
    SpliceAt(one, off + |a|, b, 0);
    SpliceAt(data, off, a + b, 0);
    forall i | 0 <= i < |both|
      ensures both[i] == two[i]
    {
      SpliceAt(data, off, a, i);
      SpliceAt(one, off + |a|, b, i);
      SpliceAt(data, off, a + b, i);
      assert both[i] == At(both, i) && two[i] == At(two, i);
    }
  }

  lemma TouchedTwice(off: nat, a: nat, b: nat)
    requires 0 < a && 0 < b
    ensures TouchedPages(off, a) + TouchedPages(off + a, b) == TouchedPages(off, a + b)
  {
    assert (off + a - 1) / PAGE_SIZE <= (off + a) / PAGE_SIZE <= (off + a - 1) / PAGE_SIZE + 1;
  }

  /** Two writes one after the other are one write of both buffers, and together answer
      as much: the number of bytes. */
  lemma WritesFollow(f: File, a: seq<bv8>, b: seq<bv8>)
    ensures After(After(f, Write(a)), Write(b)) == After(f, Write(a + b))
    ensures ReplyOf(f, Write(a)) == Number(|a|)
    ensures ReplyOf(f, Write(a + b)) == Number(|a| + |b|)
  {
    hide Splice, TouchedPages;
    if a == [] {
      assert a + b == b;
    } else if b == [] {
      assert a + b == a;
    } else {
      SpliceTwice(f.data, f.pos, a, b);
      TouchedTwice(f.pos, |a|, |b|);
    }
  }

  /** A positioned write is a seek to its offset, a write and a seek back. */
  lemma PwriteIsSeekWrite(f: File, buf: seq<bv8>, off: nat)
    requires off < 0x8000_0000_0000_0000 && f.pos < 0x8000_0000_0000_0000
    ensures After(f, Pwrite(buf, off)) == After(After(After(f, Seek(off, 0)), Write(buf)), Seek(f.pos, 0))
    ensures ReplyOf(f, Pwrite(buf, off)) == Number(|buf|)
  {
    hide Splice, TouchedPages;
    WordFits(off);
    WordFits(f.pos);
  }

  /** A positioned read where a positioned write went gives the buffer back; one that ends
      before it or begins behind it gives what it gave. */
  lemma PwritePread(f: File, buf: seq<bv8>, off: nat, cnt: nat, at: nat)
    requires buf != [] && off + |buf| < 0x1_0000_0000_0000_0000 && at + cnt <= |f.data| < 0x1_0000_0000_0000_0000
    ensures ReplyOf(After(f, Pwrite(buf, off)), Pread(|buf|, off)) == Bytes(buf)
    ensures at + cnt <= off || off + |buf| <= at ==>
              ReplyOf(After(f, Pwrite(buf, off)), Pread(cnt, at)) == ReplyOf(f, Pread(cnt, at))
  {
    hide Splice, ReadAt, TouchedPages;
    var data := Splice(f.data, off, buf);
    SpliceAt(f.data, off, buf, 0);
    ReadIsSlice(data, off, |buf|);
    forall i | 0 <= i < |buf| ensures data[off..off + |buf|][i] == buf[i] {
      SpliceAt(f.data, off, buf, off + i);
    }
    if at + cnt <= off || off + |buf| <= at {
      ReadIsSlice(data, at, cnt);
      ReadIsSlice(f.data, at, cnt);
      var have, want := data[at..at + cnt], f.data[at..at + cnt];
      forall i | 0 <= i < cnt ensures have[i] == want[i] {
        SpliceAt(f.data, off, buf, at + i);
      }
    }
  }
}
