/** How much of a transaction a write uses: filewrite's chunk size is exactly right. */
module Chunks {
  import opened Blocks
  import opened Bitmap
  import opened Inodes
  import RedoLog

  /** filewrite's chunk size, ((MAXOPBLOCKS-1-1-2)/2)*512. */
  const CHUNK: nat := (RedoLog.MAXOPBLOCKS - 1 - 1 - 2) / 2 * BSIZE

  /** A write of n bytes at `off` of file i that writei carries out, allocating `got`. What Fs.Writei logs is then
      exactly WriteLog. */
  ghost predicate CanWrite(sb: Super, blocks: seq<Block>, itab: seq<Inode>, i: nat, off: nat, n: nat, got: set<nat>) {
    && FsOk(sb, blocks, itab) && |itab| <= sb.ninodes && NoHoles(blocks, itab) && i < |itab|
    && off <= itab[i].size && off + n <= MAXSIZE && LastTouched(off, n) <= MAXFILE
    && Lowest(FreeBlocks(sb, blocks), got) && |got| == Needs(itab[i].size, off + n)
  }

  // ---- at most ----

  function Touched(off: nat, n: nat): (t: nat) {
    if LastTouched(off, n) < off / BSIZE then 0 else LastTouched(off, n) - off / BSIZE
  }

  /** Each file block, a bitmap block for each block allocated, the indirect block and its bitmap block, and the
      inode block; an unaligned write starts in a block that exists. */
  function LogBound(off: nat, n: nat): (r: nat) {
    if n == 0 then 0 else 2 * Touched(off, n) + if off % BSIZE == 0 then 3 else 2
  }

  lemma UnionSize(a: set<nat>, b: set<nat>)
    ensures |a + b| <= |a| + |b| && (a !! b ==> |a + b| == |a| + |b|)
  {
    assert a + b == a + (b - a);
    assert b == (b - a) + (a * b);
  }

  lemma PresentBelow(blocks: seq<Block>, ip: Inode, e: nat, bn: nat)
    requires Extent(blocks, ip, e) && bn < MAXFILE
    ensures Ptr(blocks, ip, Slot(bn)) != 0 <==> bn < BlockCount(e)
  {
    hide Ptr, BlockCount, Slot;
    CountBelow(e, bn);
  }

  lemma {:induction false} ExistingSize(blocks: seq<Block>, ip: Inode, e: nat, lo: nat, hi: nat)
    requires lo <= hi <= MAXFILE && lo <= BlockCount(e) && Extent(blocks, ip, e)
    ensures |Existing(blocks, ip, lo, hi)| <= (if hi < BlockCount(e) then hi else BlockCount(e)) - lo
    decreases hi
  {
    hide Ptr, BlockCount, Extent, Slot;
    if lo < hi {
      ExistingSize(blocks, ip, e, lo, hi - 1);
      var p := Ptr(blocks, ip, Slot(hi - 1));
      PresentBelow(blocks, ip, e, hi - 1);
      UnionSize(Existing(blocks, ip, lo, hi - 1), if p == 0 then {} else {p});
    }
  }

  lemma {:induction false} BitmapSize(sb: Super, got: set<nat>)
    ensures |BitmapBlocks(sb, got)| <= |got|
    decreases |got|
  {
    if got != {} {
      var x :| x in got;
      BitmapSize(sb, got - {x});
      assert BitmapBlocks(sb, got) == BitmapBlocks(sb, got - {x}) + {sb.BBlock(x)};
    }
  }

  lemma Counts(size: nat, off: nat, n: nat)
    requires off <= size && n > 0
    ensures off / BSIZE <= BlockCount(size) && off / BSIZE < LastTouched(off, n) == BlockCount(off + n)
    ensures size < off + n ==> BlockCount(size) <= LastTouched(off, n)
    ensures off % BSIZE != 0 ==> off / BSIZE < BlockCount(size)
    ensures off + n <= size ==> LastTouched(off, n) <= BlockCount(size)
  {
    var q := off / BSIZE;
    CountBelow(off + n, q);
    CountBelow(size, q);
    if size < off + n {
      BlocksGrow(size, off + n);
    } else {
      BlocksGrow(off + n, size);
    }
    CountAligned(q);
    BlocksGrow(q * BSIZE, size);
  }

  /** No write logs more than LogBound blocks. */
  lemma WithinBound(sb: Super, blocks: seq<Block>, itab: seq<Inode>, i: nat, off: nat, n: nat, got: set<nat>)
    requires i < |itab| && Extent(blocks, itab[i], itab[i].size) && off <= itab[i].size && off + n <= MAXSIZE
    requires LastTouched(off, n) <= MAXFILE && |got| == Needs(itab[i].size, off + n)
    ensures |WriteLog(sb, blocks, itab[i], i, off, n, got)| <= LogBound(off, n)
  {
    hide Extent, BlockCount, LastTouched, Existing, BitmapBlocks, Super.IBlock, Needs, AddsEntry;
    var ip := itab[i];
    if n == 0 {
      NothingLogged(sb, blocks, ip, i, off, got);
    } else {
      Counts(ip.size, off, n);
      var here := Existing(blocks, ip, off / BSIZE, LastTouched(off, n));
      ExistingSize(blocks, ip, ip.size, off / BSIZE, LastTouched(off, n));
      BitmapSize(sb, got);
      IndirectOnce(blocks, ip);
      var ind := if AddsEntry(ip.size, off + n) && ip.addrs[NDIRECT] != 0 then {ip.addrs[NDIRECT]} else {};
      var ino := if off + n > ip.size then {sb.IBlock(i)} else {};
      FourParts(here, got, BitmapBlocks(sb, got), ind, ino);
      assert WriteLog(sb, blocks, ip, i, off, n, got) == here + (got + BitmapBlocks(sb, got)) + ind + ino;
      BoundSum(ip.size, off, n, |here|, |ind|, |ino|, ip.addrs[NDIRECT] != 0);
    }
  }

  lemma NothingLogged(sb: Super, blocks: seq<Block>, ip: Inode, i: nat, off: nat, got: set<nat>)
    requires off <= ip.size && |got| == Needs(ip.size, off) && LastTouched(off, 0) <= MAXFILE
    ensures WriteLog(sb, blocks, ip, i, off, 0, got) == {}
  {
    assert got == {};
  }

  lemma FourParts(a: set<nat>, b: set<nat>, c: set<nat>, d: set<nat>, e: set<nat>)
    ensures |a + (b + c) + d + e| <= |a| + |b| + |c| + |d| + |e|
  {
    UnionSize(b, c);
    UnionSize(a, b + c);
    UnionSize(a + (b + c), d);
    UnionSize(a + (b + c) + d, e);
  }

  lemma BoundSum(size: nat, off: nat, n: nat, here: nat, ind: nat, ino: nat, hasInd: bool)
    requires n > 0 && off / BSIZE <= BlockCount(size) && off / BSIZE < LastTouched(off, n) == BlockCount(off + n)
    requires size < off + n ==> BlockCount(size) <= LastTouched(off, n)
    requires off % BSIZE != 0 ==> off / BSIZE < BlockCount(size)
    requires here + off / BSIZE <= if LastTouched(off, n) < BlockCount(size) then LastTouched(off, n)
             else BlockCount(size)
    requires ind <= 1 && ino <= 1 && (ind == 1 ==> hasInd && AddsEntry(size, off + n)) && (ino == 1 ==> size < off + n)
    requires hasInd ==> BlockCount(size) > NDIRECT
    ensures here + 2 * Needs(size, off + n) + ind + ino <= LogBound(off, n)
  {
    hide BlockCount, LastTouched;
  }

  /** The indirect block is either there already or among the blocks counted as needed. */
  lemma IndirectOnce(blocks: seq<Block>, ip: Inode)
    requires Extent(blocks, ip, ip.size)
    ensures ip.addrs[NDIRECT] != 0 ==> BlockCount(ip.size) > NDIRECT
  {
    CountBelow(ip.size, NDIRECT);
  }

  lemma ChunkFits(off: nat, n: nat)
    requires n <= CHUNK
    ensures LogBound(off, n) <= RedoLog.MAXOPBLOCKS
  {
    if n > 0 {
      var q, r := off / BSIZE, off % BSIZE;
      assert off + n + BSIZE - 1 == q * BSIZE + (r + n + BSIZE - 1);
      assert BlockCount(off + n) == q + (r + n + BSIZE - 1) / BSIZE;
    }
  }

  // ---- exactly: a disk on which a write uses everything ----

  /** A disk of 28672 blocks, seven groups of BPB, of which the first 3625 blocks are metadata. */
  function Tight(): Super { Super(28672, 32, 3105, 3625, 24576) }

  /** One block in each of five bitmap blocks is free, and all of the last group. */
  predicate IsFree(b: nat) { (b % BPB == 0 && BPB <= b < 24576) || 24576 <= b < 28672 }

  function Fill(n: nat, x: byte): (s: seq<byte>)
    ensures |s| == n && forall k :: 0 <= k < n ==> s[k] == x
  {
    if n == 0 then [] else Fill(n - 1, x) + [x]
  }

  /** Bitmap block g: all set, or all but the first, or none. */
  function Marks(g: nat): Block {
    if g == 6 then ZeroBlock() else Fill(BSIZE, 255)[0 := if 1 <= g <= 5 then 254 else 255]
  }

  function TightBlock(b: nat): Block {
    if 3105 <= b <= 3112 then Marks(b - 3105) else ZeroBlock()
  }

  function TightBlocks(n: nat): (s: seq<Block>)
    ensures |s| == n && forall b :: 0 <= b < n ==> s[b] == TightBlock(b)
  {
    if n == 0 then [] else TightBlocks(n - 1) + [TightBlock(n - 1)]
  }

  predicate Occupied(j: nat) { 3637 <= j < 24576 && !IsFree(j) }

  function NoAddrs(): seq<nat> { [0, 0, 0, 0, 0, 0, 0, 0, 0, 0, 0, 0, 0] }

  /** File 0 has its twelve direct blocks; file j has block j, if that is in use. */
  function TightInode(j: nat): Inode {
    if j == 0 then
      RawInode(12 * BSIZE, [3625, 3626, 3627, 3628, 3629, 3630, 3631, 3632, 3633, 3634, 3635, 3636, 0])
    else if Occupied(j) then RawInode(BSIZE, NoAddrs()[0 := j])
    else RawInode(0, NoAddrs())
  }

  function TightInodes(n: nat): (s: seq<Inode>)
    ensures |s| == n && forall j :: 0 <= j < n ==> s[j] == TightInode(j)
  {
    if n == 0 then [] else TightInodes(n - 1) + [TightInode(n - 1)]
  }

  lemma OnesBit(x: nat, k: nat)
    requires k < 8 && (x == 255 || x == 254)
    ensures Bit(x, k) <==> x == 255 || k != 0
  {
    BitOf255(8, k);
    if x == 254 && k > 0 {
      assert 254 / 2 == 255 / 2;
    }
  }

  lemma {:induction false} BitOf255(n: nat, k: nat)
    requires k < n
    ensures Bit(Pow2(n) - 1, k) && Pow2(8) == 256
    decreases n
  {
    Pow8();
    if k > 0 {
      BitOf255(n - 1, k - 1);
      assert (Pow2(n) - 1) / 2 == Pow2(n - 1) - 1;
    }
  }

  lemma ZeroBit(k: nat)
    ensures !Bit(0, k)
  {
  }

  lemma MarksBit(g: nat, bi: nat)
    requires bi < BPB
    ensures BlockBit(Marks(g), bi) <==> g != 6 && (bi != 0 || !(1 <= g <= 5))
  {
    hide Fill;
    if g == 6 {
      ZeroBit(bi % 8);
    } else {
      OnesBit(Marks(g)[bi / 8], bi % 8);
    }
  }

  lemma TightUsed(b: nat)
    requires b < 28672
    ensures Tight().Ok() && (Used(Tight(), TightBlocks(28672), b) <==> !IsFree(b))
  {
    hide TightBlocks, BlockBit, Marks;
    MarksBit(b / BPB, b % BPB);
  }

  lemma TightPtr(j: nat, s: nat)
    requires s < SLOTS
    ensures Ptr(TightBlocks(28672), TightInode(j), s)
         == if j == 0 then (if s < 12 then 3625 + s else 0) else if s == 0 && Occupied(j) then j else 0
  {
    hide TightBlocks, Blocks.GetWord;
  }

  lemma TightOk()
    ensures FsOk(Tight(), TightBlocks(28672), TightInodes(24576))
  {
    hide TightBlocks, TightInodes, TightInode, Ptr, Used, IsFree;
    var sb, blocks, itab := Tight(), TightBlocks(28672), TightInodes(24576);
    forall j: nat, s: nat | j < 24576 && s < SLOTS
      ensures Ptr(blocks, itab[j], s) == if j == 0 then (if s < 12 then 3625 + s else 0) else if s == 0
              && Occupied(j) then j else 0
    {
      TightPtr(j, s);
    }
    TightUsed(0);
    forall b: nat | b < sb.size
      ensures Used(sb, blocks, b) <==> b < sb.datastart || b in Owned(blocks, itab)
    {
      TightUsed(b);
      TightOwned(b);
    }
  }

  lemma TightOwned(b: nat)
    requires b < 28672
    ensures b in Owned(TightBlocks(28672), TightInodes(24576)) <==> b >= 3625 && !IsFree(b)
    ensures b < 3625 ==> !IsFree(b)
  {
    hide TightBlocks, TightInodes, TightInode, Ptr;
    var blocks, itab := TightBlocks(28672), TightInodes(24576);
    if b in Owned(blocks, itab) {
      var j: nat, s: nat :| j < |itab| && s < SLOTS && Ptr(blocks, itab[j], s) != 0 && Ptr(blocks, itab[j], s) == b;
      TightPtr(j, s);
    }
    if 3625 <= b < 3637 {
      TightPtr(0, b - 3625);
      assert Ptr(blocks, itab[0], b - 3625) == b;
    } else if Occupied(b) {
      TightPtr(b, 0);
      assert Ptr(blocks, itab[b], 0) == b;
    }
  }

  lemma TightNoHoles()
    ensures NoHoles(TightBlocks(28672), TightInodes(24576))
  {
    hide TightBlocks, TightInodes, Ptr, IsFree;
    var blocks, itab := TightBlocks(28672), TightInodes(24576);
    forall j: nat | j < 24576
      ensures itab[j].size <= MAXSIZE && Extent(blocks, itab[j], itab[j].size)
    {
      forall bn: nat | bn < MAXFILE
        ensures Ptr(blocks, itab[j], Slot(bn)) != 0 <==> bn * BSIZE < itab[j].size
      {
        TightPtr(j, Slot(bn));
      }
    }
  }

  // -- the lowest free blocks --

  lemma {:induction false} LeastOf(s: set<nat>) returns (m: nat)
    requires s != {}
    ensures m in s && forall x :: x in s ==> m <= x
  {
    m :| m in s;
    if y :| y in s && y < m {
      assert y in s - {m};
      var n := LeastOf(s - {m});
      assert forall x :: x in s ==> x == m || x in s - {m};
      m := n;
    }
  }

  lemma {:induction false} LowestOf(free: set<nat>, k: nat) returns (a: set<nat>)
    requires k <= |free|
    ensures Lowest(free, a) && |a| == k
  {
    if k == 0 {
      a := {};
    } else {
      a := LowestOf(free, k - 1);
      DifferenceSize(free, a);
      var m := LeastOf(free - a);
      LowestChain(free, a, {m});
      a := a + {m};
    }
  }

  /** k numbers from x on, d apart. */
  function Spaced(x: nat, d: nat, k: nat): (r: set<nat>)
    requires d > 0
    ensures |r| == k && forall y :: y in r ==> x <= y < x + d * k
  {
    if k == 0 then {}
    else
      OneMore(d, k);
      Spaced(x, d, k - 1) + {x + d * (k - 1)}
  }

  lemma OneMore(d: nat, k: nat)
    requires k > 0
    ensures 0 <= d * (k - 1) == d * k - d
  {
  }

  lemma {:induction false} SpacedHas(x: nat, d: nat, k: nat, j: nat)
    requires d > 0 && j < k
    ensures x + d * j in Spaced(x, d, k)
    decreases k
  {
    if j < k - 1 {
      SpacedHas(x, d, k - 1, j);
    }
  }

  lemma {:induction false} SpacedOnly(x: nat, d: nat, k: nat, y: nat)
    requires d > 0 && y in Spaced(x, d, k)
    ensures exists j: nat :: j < k && y == x + d * j
  {
    if y == x + d * (k - 1) {
    } else {
      SpacedOnly(x, d, k - 1, y);
    }
  }

  /** The free blocks of that disk. */
  ghost function TightRoom(): set<nat> {
    FreeBlocks(Tight(), TightBlocks(28672))
  }

  lemma TightFree(b: nat)
    ensures b in TightRoom() <==> IsFree(b)
  {
    if b < 28672 {
      TightUsed(b);
    }
  }

  lemma EnoughFree(k: nat)
    requires k <= 4096
    ensures |TightRoom()| >= k
  {
    var s := Spaced(24576, 1, k);
    forall b | b in s
      ensures b in TightRoom()
    {
      TightFree(b);
    }
    SubsetSize(s, TightRoom());
  }

  /** The k lowest free blocks are one each from k bitmap blocks, for k up to five. */
  lemma FirstTaken(got: set<nat>, k: nat)
    requires Lowest(TightRoom(), got) && k <= 5 && k <= |got|
    ensures Spaced(BPB, BPB, k) <= got
  {
    hide TightRoom, Spaced;
    forall y | y in Spaced(BPB, BPB, k)
      ensures y in got
    {
      SpacedOnly(BPB, BPB, k, y);
      var j: nat :| j < k && y == BPB + BPB * j;
      if y !in got {
        NotYet(got, j, y);
      }
    }
  }

  lemma NotYet(got: set<nat>, j: nat, y: nat)
    requires Lowest(TightRoom(), got) && j < 5 && y == BPB + BPB * j && y !in got
    ensures |got| <= j
  {
    hide TightRoom, Spaced;
    TightFree(y);
    forall x | x in got
      ensures x in Spaced(BPB, BPB, j)
    {
      TightFree(x);
      assert x < y;
      var q := x / BPB;
      assert x == BPB + BPB * (q - 1) && q - 1 < j;
      SpacedHas(BPB, BPB, j, q - 1);
    }
    SubsetSize(got, Spaced(BPB, BPB, j));
  }

  // -- how much those writes log --

  lemma TightBitmaps(got: set<nat>, k: nat)
    requires Lowest(TightRoom(), got) && k <= 5 && k <= |got|
    ensures Spaced(3106, 1, k) <= BitmapBlocks(Tight(), got)
    ensures forall b :: b in got ==> 3637 <= b
  {
    hide TightRoom, Spaced;
    FirstTaken(got, k);
    forall y | y in Spaced(3106, 1, k)
      ensures y in BitmapBlocks(Tight(), got)
    {
      SpacedOnly(3106, 1, k, y);
      var j: nat :| j < k && y == 3106 + 1 * j;
      SpacedHas(BPB, BPB, k, j);
      assert (BPB + BPB * j) / BPB == j + 1;
      assert Tight().BBlock(BPB + BPB * j) == y;
    }
    forall b | b in got
      ensures 3637 <= b
    {
      TightFree(b);
    }
  }

  /** A growing write to file 0 logs at least `here`, what it allocates, k bitmap blocks and the inode block. */
  lemma LogAtLeast(here: set<nat>, got: set<nat>, k: nat, log: set<nat>)
    requires Lowest(TightRoom(), got) && k <= 5 && k <= |got|
    requires here + AllocLog(Tight(), got) + {Tight().IBlock(0)} <= log && forall b :: b in here ==> 3625 <= b < 3637
    ensures |log| >= |here| + |got| + k + 1
  {
    hide TightRoom, Spaced, Lowest;
    TightBitmaps(got, k);
    var bm := Spaced(3106, 1, k);
    assert Tight().IBlock(0) == 32;
    UnionSize(here, got);
    UnionSize(here + got, bm);
    UnionSize(here + got + bm, {32});
    SubsetSize(here + got + bm + {32}, log);
  }

  lemma TightWrite(off: nat, n: nat) returns (got: set<nat>)
    requires off <= 12 * BSIZE && off + n <= MAXSIZE && LastTouched(off, n) <= MAXFILE
    ensures CanWrite(Tight(), TightBlocks(28672), TightInodes(24576), 0, off, n, got)
  {
    hide TightBlocks, TightInodes, FreeBlocks, FsOk, NoHoles, Lowest;
    TightOk();
    TightNoHoles();
    assert Needs(12 * BSIZE, off + n) <= 4096 by {
      assert BlockCount(12 * BSIZE) == 12;
      BlocksGrow(off + n, MAXSIZE);
    }
    EnoughFree(Needs(12 * BSIZE, off + n));
    got := LowestOf(TightRoom(), Needs(12 * BSIZE, off + n));
  }

  /** Tight: a chunk that starts inside a block and crosses into a new indirect block logs MAXOPBLOCKS blocks. */
  lemma ChunkTight()
    ensures exists sb, blocks, itab, i, off, got ::
              && CanWrite(sb, blocks, itab, i, off, CHUNK, got)
              && |WriteLog(sb, blocks, itab[i], i, off, CHUNK, got)| == RedoLog.MAXOPBLOCKS
  {
    hide TightBlocks, TightInodes, FreeBlocks, CanWrite, Existing, WriteLog, Lowest, Extent, Ptr, TightInode;
    var sb, blocks, itab, off := Tight(), TightBlocks(28672), TightInodes(24576), 11 * BSIZE + 1;
    assert LastTouched(off, CHUNK) == 15 && Needs(12 * BSIZE, off + CHUNK) == 4;
    var got := TightWrite(off, CHUNK);
    TightFacts(off, CHUNK, got);
    WithinBound(sb, blocks, itab, 0, off, CHUNK, got);
    ChunkFits(off, CHUNK);
    var log := WriteLog(sb, blocks, itab[0], 0, off, CHUNK, got);
    TightPtr(0, 11);
    ExistingHas(blocks, itab[0], 11, 15, 11);
    LogAtLeast({3636}, got, 4, log);
    assert CanWrite(sb, blocks, itab, 0, off, CHUNK, got) && |log| == RedoLog.MAXOPBLOCKS;
  }

  lemma TightFacts(off: nat, n: nat, got: set<nat>)
    requires CanWrite(Tight(), TightBlocks(28672), TightInodes(24576), 0, off, n, got)
    ensures var sb, blocks, ip := Tight(), TightBlocks(28672), TightInode(0);
            && ip == TightInodes(24576)[0] && ip.size == 12 * BSIZE && Extent(blocks, ip, ip.size)
            && sb.Ok() && |blocks| == sb.size && Lowest(FreeBlocks(sb, blocks), got)
              && |got| == Needs(12 * BSIZE, off + n)
            && off <= 12 * BSIZE && off + n <= MAXSIZE && LastTouched(off, n) <= MAXFILE
            && Existing(blocks, ip, off / BSIZE, LastTouched(off, n)) + AllocLog(sb, got)
               <= WriteLog(sb, blocks, ip, 0, off, n, got)
            && (n > 0 && off + n > 12 * BSIZE ==> sb.IBlock(0) in WriteLog(sb, blocks, ip, 0, off, n, got))
  {
    hide TightBlocks, TightInodes, FreeBlocks, Existing, Extent, Ptr, Lowest, AllocLog;
  }

  lemma {:induction false} ExistingHas(blocks: seq<Block>, ip: Inode, lo: nat, hi: nat, bn: nat)
    requires lo <= bn < hi <= MAXFILE && Ptr(blocks, ip, Slot(bn)) != 0
    ensures Ptr(blocks, ip, Slot(bn)) in Existing(blocks, ip, lo, hi)
    decreases hi
  {
    hide Ptr;
    if bn < hi - 1 {
      ExistingHas(blocks, ip, lo, hi - 1, bn);
    }
  }

  /** Any larger write can log more than MAXOPBLOCKS blocks. */
  lemma LargerOverflows(n: nat) returns (off: nat, got: set<nat>)
    requires CHUNK < n <= MAXSIZE
    ensures CanWrite(Tight(), TightBlocks(28672), TightInodes(24576), 0, off, n, got)
    ensures |WriteLog(Tight(), TightBlocks(28672), TightInodes(24576)[0], 0, off, n, got)| > RedoLog.MAXOPBLOCKS
  {
    off := if n <= NINDIRECT * BSIZE then 12 * BSIZE else 0;
    LastInFile(off, n);
    got := TightWrite(off, n);
    hide CanWrite, WriteLog, TightBlocks, TightInodes;
    if off == 12 * BSIZE {
      GrowingLog(n, got);
    } else {
      OverwritingLog(n, got);
    }
  }

  lemma GrowingLog(n: nat, got: set<nat>)
    requires CHUNK < n && CanWrite(Tight(), TightBlocks(28672), TightInodes(24576), 0, 12 * BSIZE, n, got)
    ensures |WriteLog(Tight(), TightBlocks(28672), TightInodes(24576)[0], 0, 12 * BSIZE, n, got)| > RedoLog.MAXOPBLOCKS
  {
    hide CanWrite, WriteLog, TightBlocks, TightInodes, Extent, Lowest, FreeBlocks, Existing, AllocLog, LastTouched,
         Needs;
    TightFacts(12 * BSIZE, n, got);
    LargerNeeds(n);
    var log := WriteLog(Tight(), TightBlocks(28672), TightInodes(24576)[0], 0, 12 * BSIZE, n, got);
    LogAtLeast({}, got, 5, log);
  }

  lemma OverwritingLog(n: nat, got: set<nat>)
    requires NINDIRECT * BSIZE < n && CanWrite(Tight(), TightBlocks(28672), TightInodes(24576), 0, 0, n, got)
    ensures |WriteLog(Tight(), TightBlocks(28672), TightInodes(24576)[0], 0, 0, n, got)| > RedoLog.MAXOPBLOCKS
  {
    hide CanWrite, WriteLog, TightBlocks, TightInodes, TightInode, Extent, Lowest, FreeBlocks, Existing, AllocLog,
         LastTouched, Needs, Spaced, Ptr;
    TightFacts(0, n, got);
    ManyTouched(n);
    var log := WriteLog(Tight(), TightBlocks(28672), TightInodes(24576)[0], 0, 0, n, got);
    var here := Spaced(3625, 1, 12);
    forall y | y in here
      ensures y in log
    {
      SpacedOnly(3625, 1, 12, y);
      var j: nat :| j < 12 && y == 3625 + 1 * j;
      TightPtr(0, j);
      ExistingHas(TightBlocks(28672), TightInode(0), 0, LastTouched(0, n), j);
    }
    SubsetSize(here, log);
  }

  lemma LargerNeeds(n: nat)
    requires CHUNK < n
    ensures Needs(12 * BSIZE, 12 * BSIZE + n) >= 5 && BlockCount(12 * BSIZE) == 12
  {
    BlocksGrow(12 * BSIZE + CHUNK + 1, 12 * BSIZE + n);
  }

  lemma ManyTouched(n: nat)
    requires n > NINDIRECT * BSIZE
    ensures LastTouched(0, n) >= 12
  {
  }

  /** The chunk size is exactly right: writes of n bytes log at most MAXOPBLOCKS blocks, whatever the disk, the file
      and the offset, if and only if n is at most CHUNK. */
  lemma ChunkIsExact(n: nat)
    requires n <= MAXSIZE
    ensures n <= CHUNK <==>
            forall sb, blocks, itab, i, off, got :: CanWrite(sb, blocks, itab, i, off, n, got) ==>
              |WriteLog(sb, blocks, itab[i], i, off, n, got)| <= RedoLog.MAXOPBLOCKS
  {
    if n <= CHUNK {
      forall sb, blocks, itab, i, off, got | CanWrite(sb, blocks, itab, i, off, n, got)
        ensures |WriteLog(sb, blocks, itab[i], i, off, n, got)| <= RedoLog.MAXOPBLOCKS
      {
        hide FsOk;
        WithinBound(sb, blocks, itab, i, off, n, got);
        ChunkFits(off, n);
      }
    } else {
      var off, got := LargerOverflows(n);
    }
  }
}
