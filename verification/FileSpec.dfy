/** The flat file an inode stands for: its bytes and its position, what each call of
    src/atfsrw.c does to them, and when the index and the pages represent it. */
module FileSpec {
  import opened Chains
  import opened Layout
  import opened LogModel
  import opened PageLists
  import opened Region
  import opened WriteModel

  const EINVAL := 22
  const SEEK_SET := 0
  const SEEK_CUR := 1
  const SEEK_END := 2

  /** A file: its bytes, the position, and the file pages that have been written, the
      others being holes. */
  datatype File = File(data: seq<bv8>, pos: nat, pages: set<nat>)

  datatype Op =
    | Write(buf: seq<bv8>)
    | Read(cnt: nat)
    | Seek(offset: int, whence: int)
    | Pwrite(buf: seq<bv8>, off: nat)
    | Pread(cnt: nat, off: nat)

  /** What a call returns: the bytes read, or the integer. */
  datatype Reply = Bytes(data: seq<bv8>) | Number(n: int)

  /** The value of a computation on 64-bit words. */
  function Word(a: int): nat {
    a % U64_SPAN
  }

  lemma WordFits(a: int)
    ensures Word(a) < U64_SPAN
    ensures 0 <= a < U64_SPAN ==> Word(a) == a
  {
  }

  function Max(a: nat, b: nat): nat {
    if a > b then a else b
  }

  /** The bytes of a file; the rest reads zero. */
  function At(data: seq<bv8>, a: nat): bv8 {
    if a < |data| then data[a] else 0
  }

  function Zeroes(n: nat): seq<bv8> {
    seq(n, _ => 0)
  }

  /** `buf` written at `off`; a gap behind the old end is filled with zeros. */
  function Splice(data: seq<bv8>, off: nat, buf: seq<bv8>): seq<bv8> {
    var padded := if |data| < off then data + Zeroes(off - |data|) else data;
    padded[..off] + buf + if off + |buf| < |data| then data[off + |buf|..] else []
  }

  /** `cnt` bytes from `off` on.  The test for the end of the file is in unsigned
      64-bit arithmetic, and so is the walk. */
  function ReadAt(data: seq<bv8>, off: nat, cnt: nat): Reply {
    if Word(off + cnt) > |data| then Number(-1)
    else Bytes(seq(cnt, i requires 0 <= i < cnt => At(data, Word(off + i))))
  }

  /** The value of a 64-bit word as `off_t`. */
  function Signed(w: nat): int {
    if w >= U64_SPAN / 2 then w - U64_SPAN else w
  }

  function SeekTo(f: File, offset: int, whence: int): Option<nat> {
    if whence == SEEK_SET then Some(Word(offset))
    else if whence == SEEK_CUR then Some(Word(f.pos + offset))
    else if whence == SEEK_END then Some(Word(|f.data| + offset))
    else None
  }

  /** The calls covered: writes that end below 2^64, and 64-bit counts and offsets.  The
      code as written makes nothing sensible of a write of no bytes
      (`WriteModel.ZeroLengthPages`). */
  predicate Fits(b: Build, f: File, op: Op) {
    match op
    case Write(buf) => f.pos + |buf| < U64_SPAN && (b == Repaired || buf != [])
    case Read(cnt) => cnt < U64_SPAN
    case Seek(offset, whence) => -U64_SPAN / 2 <= offset < U64_SPAN / 2
    case Pwrite(buf, off) => off + |buf| < U64_SPAN && (b == Repaired || buf != [])
    case Pread(cnt, off) => cnt < U64_SPAN && off < U64_SPAN
  }

  /** What a caller of the code as written has to test before a write: that it is clean
      and, in `pwrite`, that the position gives the right size. */
  predicate Cautious(b: Build, f: File, op: Op) {
    b == Repaired ||
    match op
    case Write(buf) => CleanWrite(f.pos, |buf|, f.pages)
    case Pwrite(buf, off) => CleanWrite(off, |buf|, f.pages) && PwriteRight(|f.data|, f.pos, off, |buf|)
    case _ => true
  }

  predicate Admits(b: Build, f: File, op: Op) {
    Fits(b, f, op) && Cautious(b, f, op)
  }

  /** The file after `buf` was written at `off`; writing nothing changes nothing. */
  function Written(f: File, off: nat, buf: seq<bv8>): File {
    if buf == [] then f else f.(data := Splice(f.data, off, buf), pages := f.pages + TouchedPages(off, |buf|))
  }

  /** The file after a call. */
  function After(f: File, op: Op): File {
    match op
    case Write(buf) => Written(f, f.pos, buf).(pos := f.pos + |buf|)
    case Read(cnt) => f.(pos := Word(f.pos + cnt))
    case Seek(offset, whence) => if SeekTo(f, offset, whence).Some? then f.(pos := SeekTo(f, offset, whence).value) else f
    case Pwrite(buf, off) => Written(f, off, buf)
    case Pread(cnt, off) => f
  }

  /** Pages of the global list that are enough for a call. */
  function Cost(f: File, op: Op): nat {
    match op
    case Write(buf) => WriteCost(|buf|, f.pos)
    case Pwrite(buf, off) => WriteCost(|buf|, off)
    case _ => 0
  }

  /** What the call returns. */
  function ReplyOf(f: File, op: Op): Reply {
    match op
    case Write(buf) => Number(|buf|)
    case Read(cnt) => ReadAt(f.data, f.pos, cnt)
    case Seek(offset, whence) => if SeekTo(f, offset, whence).Some? then Number(Signed(SeekTo(f, offset, whence).value)) else Number(EINVAL)
    case Pwrite(buf, off) => Number(|buf|)
    case Pread(cnt, off) => ReadAt(f.data, off, cnt)
  }

  // -------------------------------------------------------------- what it means

  lemma SpliceAt(data: seq<bv8>, off: nat, buf: seq<bv8>, a: nat)
    requires buf != []
    ensures |Splice(data, off, buf)| == Max(|data|, off + |buf|)
    ensures At(Splice(data, off, buf), a) == if off <= a < off + |buf| then buf[a - off] else At(data, a)
  {
  }

  /** Below 2^64 a read succeeds exactly inside the file and gives that part of it. */
  lemma ReadIsSlice(data: seq<bv8>, off: nat, cnt: nat)
    requires off + cnt < U64_SPAN
    ensures off + cnt > |data| ==> ReadAt(data, off, cnt) == Number(-1)
    ensures off + cnt <= |data| ==> ReadAt(data, off, cnt) == Bytes(data[off..off + cnt])
  {
    hide Word;
    WordFits(off + cnt);
    if off + cnt <= |data| {
      var r := ReadAt(data, off, cnt);
      forall i | 0 <= i < cnt ensures r.data[i] == data[off..off + cnt][i] {
        WordFits(off + i);
        assert r.data[i] == At(data, Word(off + i)) == data[off + i];
      }
    }
  }

  /** Seeking back after a write and reading as much gives what was written. */
  lemma WriteSeekRead(f: File, buf: seq<bv8>)
    requires Fits(Repaired, f, Write(buf)) && buf != [] && f.pos < U64_SPAN / 2
    ensures var g := After(After(f, Write(buf)), Seek(f.pos, SEEK_SET));
      ReplyOf(g, Read(|buf|)) == Bytes(buf)
  {
    hide Splice, ReadAt, Word;
    var data := Splice(f.data, f.pos, buf);
    WordFits(f.pos);
    SpliceAt(f.data, f.pos, buf, 0);
    ReadIsSlice(data, f.pos, |buf|);
    forall i | 0 <= i < |buf| ensures data[f.pos..f.pos + |buf|][i] == buf[i] {
      SpliceAt(f.data, f.pos, buf, f.pos + i);
    }
  }

  // ---------------------------------------------------------- how it is represented

  /** The file that the index and the page bytes hold, `size` bytes long. */
  function FileBytes(bytes: seq<Page>, index: map<nat, int>, size: nat): (r: seq<bv8>)
    ensures |r| == size && forall a | 0 <= a < size :: r[a] == ByteAt(bytes, index, a)
  {
    seq(size, a requires 0 <= a < size => ByteAt(bytes, index, a))
  }

  /** Nothing but zeros behind the end of the file. */
  ghost predicate ZeroTail(bytes: seq<Page>, index: map<nat, int>, size: nat) {
    forall a: nat | a >= size :: ByteAt(bytes, index, a) == 0
  }

  /** A repaired write is the splice. */
  lemma WriteSplices(off: nat, buf: seq<bv8>, size: nat, bytes: seq<Page>, index: map<nat, int>, bytes': seq<Page>, index': map<nat, int>)
    requires buf != [] && Wrote(Repaired, off, buf, bytes, index, bytes', index') && ZeroTail(bytes, index, size)
    ensures var size' := Max(size, off + |buf|);
      && FileBytes(bytes', index', size') == Splice(FileBytes(bytes, index, size), off, buf)
      && ZeroTail(bytes', index', size')
  {
    hide Wrote, ByteAt, Splice;
    var data, size' := FileBytes(bytes, index, size), Max(size, off + |buf|);
    SpliceAt(data, off, buf, 0);
    forall a: nat
      ensures a < size' ==> FileBytes(bytes', index', size')[a] == Splice(data, off, buf)[a]
      ensures a >= size' ==> ByteAt(bytes', index', a) == 0
    {
      RepairedSplices(off, buf, bytes, index, bytes', index', a);
      SpliceAt(data, off, buf, a);
    }
  }

  /** As written, a write is the splice and leaves zeros behind the end if and only if,
      for every byte it leaves stale, the fresh page happened to hold the right one; it
      is the splice if and only if that holds of the bytes of the file. */
  lemma AsWrittenSplices(wild: int, off: nat, buf: seq<bv8>, size: nat, bytes: seq<Page>, index: map<nat, int>,
                         bytes': seq<Page>, index': map<nat, int>)
    requires buf != [] && Wrote(AsWritten(wild), off, buf, bytes, index, bytes', index') && ZeroTail(bytes, index, size)
    requires forall fp | fp in index :: 0 <= index[fp] < |bytes|
    ensures var size' := Max(size, off + |buf|);
      FileBytes(bytes', index', size') == Splice(FileBytes(bytes, index, size), off, buf) <==>
      forall a: nat | Dropped(off, |buf|, size, index.Keys, a) :: Stale(bytes, index', a) == ByteAt(bytes, index, a)
    ensures Spliced(off, buf, size, bytes, index, bytes', index') <==>
      forall a: nat | LeftStale(off, |buf|, index.Keys, a) :: Stale(bytes, index', a) == ByteAt(bytes, index, a)
  {
    hide Wrote, ByteAt, Splice, LeftStale, Stale;
    var data, size' := FileBytes(bytes, index, size), Max(size, off + |buf|);
    var want, have := Splice(data, off, buf), FileBytes(bytes', index', size');
    SpliceAt(data, off, buf, 0);
    forall a: nat
      ensures ByteAt(bytes', index', a) == At(want, a) <==>
              (LeftStale(off, |buf|, index.Keys, a) ==> Stale(bytes, index', a) == ByteAt(bytes, index, a))
    {
      AsWrittenByte(wild, off, buf, bytes, index, bytes', index', a);
      SpliceAt(data, off, buf, a);
    }
    SameAt(have, want);
  }

  lemma SameAt(a: seq<bv8>, b: seq<bv8>)
    ensures a == b <==> |a| == |b| && forall i: nat | i < |a| :: At(a, i) == At(b, i)
  {
    if |a| == |b| && forall i: nat | i < |a| :: At(a, i) == At(b, i) {
      forall i | 0 <= i < |a| ensures a[i] == b[i] {
        assert At(a, i) == At(b, i);
      }
    }
  }

  /** The write made the file the splice and left zeros behind its end. */
  ghost predicate Spliced(off: nat, buf: seq<bv8>, size: nat, bytes: seq<Page>, index: map<nat, int>,
                          bytes': seq<Page>, index': map<nat, int>) {
    var size' := Max(size, off + |buf|);
    && FileBytes(bytes', index', size') == Splice(FileBytes(bytes, index, size), off, buf)
    && ZeroTail(bytes', index', size')
  }

  /** A write that passes the weaker test is the splice, whatever the fresh pages held;
      what it leaves behind the end is another matter (`SecondWriteExposesStale`). */
  lemma AsWrittenSafe(wild: int, off: nat, buf: seq<bv8>, size: nat, bytes: seq<Page>, index: map<nat, int>,
                      bytes': seq<Page>, index': map<nat, int>)
    requires buf != [] && Wrote(AsWritten(wild), off, buf, bytes, index, bytes', index') && ZeroTail(bytes, index, size)
    requires forall fp | fp in index :: 0 <= index[fp] < |bytes|
    requires SafeWrite(off, |buf|, size, index.Keys)
    ensures FileBytes(bytes', index', Max(size, off + |buf|)) == Splice(FileBytes(bytes, index, size), off, buf)
  {
    hide Wrote, FileBytes, Splice, Dropped, SafeWrite;
    SafeWriteExact(off, |buf|, size, index.Keys);
    AsWrittenSplices(wild, off, buf, size, bytes, index, bytes', index');
  }

  /** A clean write is the splice and leaves zeros behind the end. */
  lemma AsWrittenClean(wild: int, off: nat, buf: seq<bv8>, size: nat, bytes: seq<Page>, index: map<nat, int>,
                       bytes': seq<Page>, index': map<nat, int>)
    requires buf != [] && Wrote(AsWritten(wild), off, buf, bytes, index, bytes', index') && ZeroTail(bytes, index, size)
    requires forall fp | fp in index :: 0 <= index[fp] < |bytes|
    requires CleanWrite(off, |buf|, index.Keys)
    ensures Spliced(off, buf, size, bytes, index, bytes', index')
  {
    hide Wrote, Spliced, LeftStale, CleanWrite;
    CleanWriteExact(off, |buf|, index.Keys);
    AsWrittenSplices(wild, off, buf, size, bytes, index, bytes', index');
  }

  // ------------------------------------------------- whatever the fresh pages hold

  /** A region with the same file: the pages the index names hold the same bytes, the
      others hold anything. */
  ghost predicate SameFilePages(bytes: seq<Page>, bytes0: seq<Page>, index: map<nat, int>) {
    |bytes| <= |bytes0| && forall fp | fp in index :: 0 <= index[fp] < |bytes| && bytes0[index[fp]] == bytes[index[fp]]
  }

  /** The code as written makes the splice of this file and leaves zeros behind its end,
      whatever the fresh pages hold. */
  ghost predicate AlwaysSpliced(off: nat, buf: seq<bv8>, size: nat, bytes: seq<Page>, index: map<nat, int>)
    requires buf != []
  {
    forall bytes0, bytes', index' |
      SameFilePages(bytes, bytes0, index) && Wrote(AsWritten(NIL), off, buf, bytes0, index, bytes', index') ::
      Spliced(off, buf, size, bytes0, index, bytes', index')
  }

  /** The index and the pages after a write onto the fresh pages `n`, `n + 1`, ... */
  function Onto(index: map<nat, int>, off: nat, cnt: nat, n: nat): (r: map<nat, int>)
    requires 0 < cnt
    ensures r.Keys == index.Keys + TouchedPages(off, cnt)
    ensures forall fp | fp in r :: r[fp] == if Touched(off, cnt, fp) then n + fp - off / PAGE_SIZE else index[fp]
  {
    map fp: nat | fp in index.Keys + TouchedPages(off, cnt) ::
      if Touched(off, cnt, fp) then n + fp - off / PAGE_SIZE else index[fp]
  }

  /** A region whose fresh pages hold `v` everywhere. */
  function Littered(bytes: seq<Page>, extra: nat, v: bv8): (r: seq<Page>)
    ensures |r| == |bytes| + extra && forall p | 0 <= p < |r| :: r[p] == if p < |bytes| then bytes[p] else Uniform(v)
  {
    bytes + seq(extra, _ => Uniform(v))
  }

  function Uniform(v: bv8): Page {
    seq(PAGE_SIZE, _ => v)
  }

  function ImageOn(off: nat, buf: seq<bv8>, n: nat, bytes0: seq<Page>, index: map<nat, int>, p: nat): Page
    requires buf != [] && p < |bytes0|
  {
    var fp := off / PAGE_SIZE + (p - n);
    if n <= p && Touched(off, |buf|, fp) then Image(AsWritten(NIL), off, buf, fp, PageOf(bytes0, index, fp), bytes0[p])
    else bytes0[p]
  }

  function ImagesOn(off: nat, buf: seq<bv8>, n: nat, bytes0: seq<Page>, index: map<nat, int>): (r: seq<Page>)
    requires buf != []
    ensures |r| == |bytes0| && forall p | 0 <= p < |r| :: r[p] == ImageOn(off, buf, n, bytes0, index, p)
  {
    seq(|bytes0|, p requires 0 <= p < |bytes0| => ImageOn(off, buf, n, bytes0, index, p))
  }

  /** A write onto littered pages, as the write loop does it. */
  lemma WroteOnto(off: nat, buf: seq<bv8>, bytes: seq<Page>, index: map<nat, int>, v: bv8) returns (bytes0: seq<Page>, bytes': seq<Page>, index': map<nat, int>)
    requires buf != [] && forall fp | fp in index :: 0 <= index[fp] < |bytes|
    ensures SameFilePages(bytes, bytes0, index) && Wrote(AsWritten(NIL), off, buf, bytes0, index, bytes', index')
    ensures forall fp | Touched(off, |buf|, fp) :: fp in index' && 0 <= index'[fp] < |bytes0| && bytes0[index'[fp]] == Uniform(v)
  {
    hide Image, Touched, Uniform;
    var n := |bytes|;
    var extra: nat := (off + |buf| - 1) / PAGE_SIZE + 1 - off / PAGE_SIZE;
    bytes0 := Littered(bytes, extra, v);
    index' := Onto(index, off, |buf|, n);
    bytes' := ImagesOn(off, buf, n, bytes0, index);
    forall fp: nat | Touched(off, |buf|, fp)
      ensures fp in index' && n <= index'[fp] < |bytes0| && bytes0[index'[fp]] == Uniform(v)
      ensures bytes'[index'[fp]] == Image(AsWritten(NIL), off, buf, fp, PageOf(bytes0, index, fp), bytes0[index'[fp]])
    {
      TouchedRange(off, |buf|, fp);
      assert index'[fp] == n + fp - off / PAGE_SIZE;
    }
    forall fp: nat | !Touched(off, |buf|, fp)
      ensures PageOf(bytes', index', fp) == PageOf(bytes0, index, fp)
    {
    }
  }

  lemma TouchedRange(off: nat, cnt: nat, fp: nat)
    requires 0 < cnt && Touched(off, cnt, fp)
    ensures off / PAGE_SIZE <= fp <= (off + cnt - 1) / PAGE_SIZE
  {
  }

  lemma UniformAt(bytes: seq<Page>, index: map<nat, int>, a: nat, v: bv8)
    requires var fp := a / PAGE_SIZE; fp in index && 0 <= index[fp] < |bytes| && bytes[index[fp]] == Uniform(v)
    ensures ByteAt(bytes, index, a) == v
  {
  }

  lemma SamePagesBytes(bytes: seq<Page>, bytes0: seq<Page>, index: map<nat, int>, size: nat)
    requires SameFilePages(bytes, bytes0, index)
    ensures forall a: nat :: ByteAt(bytes0, index, a) == ByteAt(bytes, index, a)
    ensures ZeroTail(bytes0, index, size) <==> ZeroTail(bytes, index, size)
  {
    forall a: nat ensures ByteAt(bytes0, index, a) == ByteAt(bytes, index, a) {
      assert PageOf(bytes0, index, a / PAGE_SIZE) == PageOf(bytes, index, a / PAGE_SIZE);
    }
  }

  /** The exact condition, on the call and the file alone: the code as written makes the
      splice and leaves zeros behind the end, whatever the fresh pages hold, if and only
      if the write is clean. */
  lemma CleanWriteSplices(off: nat, buf: seq<bv8>, size: nat, bytes: seq<Page>, index: map<nat, int>)
    requires buf != [] && ZeroTail(bytes, index, size) && forall fp | fp in index :: 0 <= index[fp] < |bytes|
    ensures CleanWrite(off, |buf|, index.Keys) <==> AlwaysSpliced(off, buf, size, bytes, index)
  {
    hide Wrote, Spliced, LeftStale, CleanWrite, ZeroTail, Touched, ByteAt, Uniform;
    if CleanWrite(off, |buf|, index.Keys) {
      forall bytes0, bytes', index' |
        SameFilePages(bytes, bytes0, index) && Wrote(AsWritten(NIL), off, buf, bytes0, index, bytes', index')
        ensures Spliced(off, buf, size, bytes0, index, bytes', index')
      {
        SamePagesBytes(bytes, bytes0, index, size);
        AsWrittenClean(NIL, off, buf, size, bytes0, index, bytes', index');
      }
    } else {
      DirtyWriteFails(off, buf, size, bytes, index);
    }
  }

  /** Two one-byte writes to an empty file, at 0 and at 2, onto pages full of sevens:
      both pass the weaker test and the first leaves its sevens behind the end, from
      where the second takes one into the gap. */
  lemma SecondWriteExposesStale(wild: int) returns (bytes1: seq<Page>, index1: map<nat, int>, bytes2: seq<Page>, index2: map<nat, int>)
    ensures SafeWrite(0, 1, 0, {}) && Wrote(AsWritten(wild), 0, [1], [Uniform(7), Uniform(7)], map[], bytes1, index1)
    ensures index1.Keys == {0} && FileBytes(bytes1, index1, 1) == Splice([], 0, [1])
    ensures SafeWrite(2, 1, 1, {0}) && Wrote(AsWritten(wild), 2, [1], bytes1, index1, bytes2, index2)
    ensures FileBytes(bytes2, index2, 3) == [1, 7, 1] && Splice(Splice([], 0, [1]), 2, [1]) == [1, 0, 1]
    ensures !CleanWrite(0, 1, {})
  {
    hide Wrote, ByteAt, Uniform;
    bytes1, index1 := OneByteWrote(wild, 0, [Uniform(7), Uniform(7)], map[], 0);
    bytes2, index2 := OneByteWrote(wild, 2, bytes1, index1, 1);
    SevenAt(0);
    SevenAt(1);
    SevenAt(2);
    var have := FileBytes(bytes2, index2, 3);
    assert have[0] == 1 && have[1] == 7 && have[2] == 1;
  }

  lemma SevenAt(x: nat)
    requires x < PAGE_SIZE
    ensures Uniform(7)[x] == 7
  {
  }

  /** A one-byte write into file page 0, onto page `q`. */
  lemma OneByteWrote(wild: int, off: nat, bytes: seq<Page>, index: map<nat, int>, q: nat) returns (bytes': seq<Page>, index': map<nat, int>)
    requires off < PAGE_SIZE && q < |bytes| && index.Keys <= {0} && (0 in index ==> 0 <= index[0] < |bytes| && index[0] != q)
    ensures Wrote(AsWritten(wild), off, [1], bytes, index, bytes', index') && index' == map[0 := q]
    ensures |bytes'| == |bytes| && forall p | 0 <= p < |bytes| && p != q :: bytes'[p] == bytes[p]
    ensures forall x: nat | x < PAGE_SIZE ::
              ByteAt(bytes', index', x) == if x == off then 1 else if x < off && 0 in index then ByteAt(bytes, index, x) else bytes[q][x]
  {
    hide Image, Touched, Beside;
    FirstPageOnly(off);
    index' := map[0 := q];
    bytes' := bytes[q := Image(AsWritten(wild), off, [1], 0, PageOf(bytes, index, 0), bytes[q])];
    forall x: nat | x < PAGE_SIZE
      ensures ByteAt(bytes', index', x) == if x == off then 1 else if x < off && 0 in index then ByteAt(bytes, index, x) else bytes[q][x]
    {
      WroteByte(AsWritten(wild), off, [1], bytes, index, bytes', index', x);
      BesideStale(wild, x < off, PageOf(bytes, index, 0), bytes[q]);
    }
  }

  lemma BesideStale(wild: int, merge: bool, prior: Option<Page>, stale: Page)
    ensures Beside(AsWritten(wild), merge, prior, stale) == if merge && prior.Some? then prior.value else stale
  {
  }

  lemma FirstPageOnly(off: nat)
    requires off < PAGE_SIZE
    ensures forall fp: nat :: Touched(off, 1, fp) <==> fp == 0
    ensures PageCount(1, off % PAGE_SIZE) == 1
  {
  }

  lemma DirtyWriteFails(off: nat, buf: seq<bv8>, size: nat, bytes: seq<Page>, index: map<nat, int>)
    requires buf != [] && ZeroTail(bytes, index, size) && forall fp | fp in index :: 0 <= index[fp] < |bytes|
    requires !CleanWrite(off, |buf|, index.Keys)
    ensures !AlwaysSpliced(off, buf, size, bytes, index)
  {
    hide Wrote, Spliced, CleanWrite, ZeroTail, Touched, ByteAt, Uniform;
    CleanWriteExact(off, |buf|, index.Keys);
    var a := StaleAt(off, |buf|, index.Keys);
    var v: bv8 := if ByteAt(bytes, index, a) == 0 then 1 else 0;
    var bytes0, bytes', index' := WroteOnto(off, buf, bytes, index, v);
    SamePagesBytes(bytes, bytes0, index, size);
    UniformAt(bytes0, index', a, v);
    AsWrittenSplices(NIL, off, buf, size, bytes0, index, bytes', index');
    assert LeftStale(off, |buf|, index.Keys, a) && Stale(bytes0, index', a) != ByteAt(bytes0, index, a);
  }

  /** The size `atfspwrite` leaves.  As written it goes by the file position instead of
      the offset it was given (src/atfsrw.c:305). */
  function PwriteSize(b: Build, size: nat, pos: nat, off: nat, cnt: nat): nat {
    var end := if b == Repaired then off + cnt else Word(pos + cnt);
    if end > size then end else size
  }

  /** The test that it is the right one: both ends coincide or lie within the old
      file. */
  predicate PwriteRight(size: nat, pos: nat, off: nat, cnt: nat) {
    Word(pos + cnt) == off + cnt || (Word(pos + cnt) <= size && off + cnt <= size)
  }

  lemma PwriteSizeExact(wild: int, size: nat, pos: nat, off: nat, cnt: nat)
    ensures PwriteSize(AsWritten(wild), size, pos, off, cnt) == Max(size, off + cnt) <==> PwriteRight(size, pos, off, cnt)
    ensures PwriteSize(Repaired, size, pos, off, cnt) == Max(size, off + cnt)
  {
  }

  /** One byte at offset 4096 of an empty file, position 0: the size becomes 1. */
  lemma PwriteSizeExample(wild: int)
    ensures PwriteSize(AsWritten(wild), 0, 0, 4096, 1) == 1 && !PwriteRight(0, 0, 4096, 1)
  {
  }

  // ----------------------------------------------- writes of no bytes, as written

  /** A write of no bytes inside file page `fp`, as written: it installs a page `q` for
      it that it writes nothing to, and raises the size to the file position. */
  function AfterNothing(bytes: seq<Page>, index: map<nat, int>, size: nat, pos: nat, fp: nat, q: int): File {
    File(FileBytes(bytes, index[fp := q], Max(size, pos)), pos, index.Keys + {fp})
  }

  /** Whatever page that is and whatever it holds, the file is what it was. */
  ghost predicate NothingKeepsFile(fp: nat, pos: nat, size: nat, bytes: seq<Page>, index: map<nat, int>) {
    forall bytes0, q | SameFilePages(bytes, bytes0, index) && 0 <= q < |bytes0| && q !in index.Values ::
      AfterNothing(bytes0, index, size, pos, fp, q).data == FileBytes(bytes, index, size)
  }

  /** And zeros still follow it. */
  ghost predicate NothingKeepsTail(fp: nat, pos: nat, size: nat, bytes: seq<Page>, index: map<nat, int>) {
    forall bytes0, q | SameFilePages(bytes, bytes0, index) && 0 <= q < |bytes0| && q !in index.Values ::
      ZeroTail(bytes0, index[fp := q], Max(size, pos))
  }

  /** A page for `fp` that differs from the file, or from zero, at byte `a`. */
  lemma OtherPage(fp: nat, a: nat, bytes: seq<Page>, index: map<nat, int>, v: bv8) returns (bytes0: seq<Page>, q: int)
    requires a / PAGE_SIZE == fp && forall x | x in index :: 0 <= index[x] < |bytes|
    ensures SameFilePages(bytes, bytes0, index) && 0 <= q < |bytes0| && q !in index.Values
    ensures ByteAt(bytes0, index[fp := q], a) == v
  {
    hide Uniform;
    bytes0, q := Littered(bytes, 1, v), |bytes|;
    UniformAt(bytes0, index[fp := q], a, v);
  }

  lemma PageStart(fp: nat, a: nat)
    ensures FileOff(fp) / PAGE_SIZE == fp
    ensures a < FileOff(fp) ==> a / PAGE_SIZE < fp
    ensures a >= FileOff(fp + 1) ==> a / PAGE_SIZE > fp
    ensures FileOff(fp) <= a < FileOff(fp + 1) ==> a / PAGE_SIZE == fp
  {
  }

  /** The file survives such a write exactly if the position does not lie behind its end
      and the file page does. */
  lemma NothingKeepsFileExact(fp: nat, pos: nat, size: nat, bytes: seq<Page>, index: map<nat, int>)
    requires forall x | x in index :: 0 <= index[x] < |bytes|
    ensures NothingKeepsFile(fp, pos, size, bytes, index) <==> pos <= size <= FileOff(fp)
  {
    hide ByteAt, Uniform, FileOff, Littered;
    if pos <= size <= FileOff(fp) {
      forall bytes0, q | SameFilePages(bytes, bytes0, index) && 0 <= q < |bytes0| && q !in index.Values
        ensures FileBytes(bytes0, index[fp := q], Max(size, pos)) == FileBytes(bytes, index, size)
      {
        SamePagesBytes(bytes, bytes0, index, size);
        forall a: nat | a < size
          ensures ByteAt(bytes0, index[fp := q], a) == ByteAt(bytes, index, a)
        {
          PageStart(fp, a);
          InstalledByte(bytes0, index, fp, q, a);
        }
      }
    } else {
      var a := FileOff(fp);
      PageStart(fp, a);
      var bytes0, q := OtherPage(fp, a, bytes, index, if ByteAt(bytes, index, a) == 0 then 1 else 0);
      var have, want := FileBytes(bytes0, index[fp := q], Max(size, pos)), FileBytes(bytes, index, size);
      assert pos <= size ==> have[a] != want[a];
      assert pos > size ==> |have| != |want|;
    }
  }

  /** The zeros behind it survive exactly if the file page lies before the new end. */
  lemma NothingKeepsTailExact(fp: nat, pos: nat, size: nat, bytes: seq<Page>, index: map<nat, int>)
    requires ZeroTail(bytes, index, size) && forall x | x in index :: 0 <= index[x] < |bytes|
    ensures NothingKeepsTail(fp, pos, size, bytes, index) <==> FileOff(fp + 1) <= Max(size, pos)
  {
    hide ByteAt, Uniform, FileOff, Littered;
    var size' := Max(size, pos);
    if FileOff(fp + 1) <= size' {
      forall bytes0, q | SameFilePages(bytes, bytes0, index) && 0 <= q < |bytes0| && q !in index.Values
        ensures ZeroTail(bytes0, index[fp := q], size')
      {
        SamePagesBytes(bytes, bytes0, index, size);
        var index' := index[fp := q];
        forall a: nat | a >= size'
          ensures ByteAt(bytes0, index', a) == 0
        {
          PageStart(fp, a);
          InstalledByte(bytes0, index, fp, q, a);
        }
      }
    } else {
      var a := Max(size', FileOff(fp));
      FileOffAdd(fp, 1);
      PageStart(fp, a);
      var bytes0, q := OtherPage(fp, a, bytes, index, 1);
    }
  }

  /** So it never leaves both as they were. */
  lemma NothingNeverHarmless(fp: nat, pos: nat, size: nat, bytes: seq<Page>, index: map<nat, int>)
    requires ZeroTail(bytes, index, size) && forall x | x in index :: 0 <= index[x] < |bytes|
    ensures !(NothingKeepsFile(fp, pos, size, bytes, index) && NothingKeepsTail(fp, pos, size, bytes, index))
  {
    hide FileOff;
    NothingKeepsFileExact(fp, pos, size, bytes, index);
    NothingKeepsTailExact(fp, pos, size, bytes, index);
    FileOffAdd(fp, 1);
  }

  /** In `atfswrite` the position is the offset: inside a page there is no file that is
      sure to survive. */
  lemma WriteNothingNeverSafe(pos: nat, size: nat, bytes: seq<Page>, index: map<nat, int>)
    requires pos % PAGE_SIZE != 0 && forall x | x in index :: 0 <= index[x] < |bytes|
    ensures !NothingKeepsFile(pos / PAGE_SIZE, pos, size, bytes, index)
  {
    hide ByteAt;
    NothingKeepsFileExact(pos / PAGE_SIZE, pos, size, bytes, index);
    PlaceOf(pos);
  }

  // ------------------------------------------------------------------------ reading

  /** The page a read copies from: a hole is a page of zeros. */
  function PageOrZeros(bytes: seq<Page>, index: map<nat, int>, fp: nat): Page {
    if PageOf(bytes, index, fp).Some? then PageOf(bytes, index, fp).value else Zeros()
  }

  /** The walk of `nvmio_read`: `done` bytes are read, the next one is byte `offset` of
      the page at file offset `start`. */
  ghost predicate ReadPlace(off: nat, cnt: nat, done: nat, start: nat, offset: nat) {
    && done <= cnt && start % PAGE_SIZE == 0 && start + PAGE_SIZE <= U64_SPAN && offset < PAGE_SIZE
    && (done < cnt ==> start + offset == Word(off + done))
  }

  lemma ReadFrom(off: nat, cnt: nat)
    requires off < U64_SPAN
    ensures ReadPlace(off, cnt, 0, off / PAGE_SIZE * PAGE_SIZE, off % PAGE_SIZE)
  {
  }

  /** How much one round of the loop reads (src/nvmio.c:393-403). */
  function RoundSize(total: nat, offset: nat): nat
    requires offset < PAGE_SIZE
  {
    if offset != 0 then (if total < PAGE_SIZE - offset then total else PAGE_SIZE - offset)
    else if total < PAGE_SIZE then total else PAGE_SIZE
  }

  lemma ReadOn(off: nat, cnt: nat, done: nat, start: nat, offset: nat)
    requires ReadPlace(off, cnt, done, start, offset) && done < cnt
    ensures var n := RoundSize(cnt - done, offset);
      0 < n <= cnt - done && offset + n <= PAGE_SIZE && ReadPlace(off, cnt, done + n, Word(start + PAGE_SIZE), 0)
  {
    var n, w := RoundSize(cnt - done, offset), (off + done) / U64_SPAN;
    assert off + done == w * U64_SPAN + start + offset;
    if done + n < cnt {
      assert off + (done + n) == w * U64_SPAN + (start + PAGE_SIZE);
      WordPeriod(start + PAGE_SIZE, w);
    }
    assert start == start / PAGE_SIZE * PAGE_SIZE;
  }

  lemma WordPeriod(a: nat, w: nat)
    ensures Word(w * U64_SPAN + a) == Word(a)
  {
  }

  lemma ReadByte(bytes: seq<Page>, index: map<nat, int>, off: nat, cnt: nat, done: nat, start: nat, offset: nat, i: nat)
    requires ReadPlace(off, cnt, done, start, offset) && done < cnt && offset + i < PAGE_SIZE
    ensures ByteAt(bytes, index, Word(off + done + i)) == PageOrZeros(bytes, index, start / PAGE_SIZE)[offset + i]
  {
    var a := start + offset + i;
    var w := (off + done) / U64_SPAN;
    assert off + done + i == w * U64_SPAN + a;
    WordPeriod(a, w);
    WordFits(a);
    assert a == start / PAGE_SIZE * PAGE_SIZE + (offset + i);
    assert a / PAGE_SIZE == start / PAGE_SIZE && a % PAGE_SIZE == offset + i;
  }
}
