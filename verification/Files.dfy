/** filewrite: a write system call is cut into chunks, each its own transaction. */
module Files {
  import opened Basics
  import opened Blocks
  import opened Inodes
  import opened Chunks
  import RedoLog

  class OpenFile {
    const fs: Fs
    const ip: nat
    var off: nat

    constructor (fs: Fs, ip: nat, off: nat)
      ensures this.fs == fs && this.ip == ip && this.off == off
    {
      this.fs, this.ip, this.off := fs, ip, off;
    }

    ghost predicate Valid()
      reads this, fs
    {
      && fs.Valid() && ip < |fs.itab| && off < WORD_LIMIT
      && fs.itab[ip].size <= MAXSIZE && Extent(fs.blocks, fs.itab[ip], fs.itab[ip].size)
      && fs.dtab[ip] == fs.itab[ip]
    }

    ghost function Bytes(): seq<byte>
      requires Valid()
      reads this, fs
    {
      Contents(fs.blocks, fs.itab[ip])
    }

    /** The file-inode branch of filewrite. `k` is how many bytes were written: all of them on Done;
        on Failed (the result -1) a whole number of chunks, the next of which would not fit.
        `logs` are the sets of blocks logged by the transactions it ran, one for each chunk; a chunk that does not
        fit logs nothing. */
    method Write(src: seq<byte>) returns (r: IoResult, ghost k: nat, ghost logs: seq<set<nat>>)
      requires Valid() && |src| < 0x8000_0000
      modifies this, fs`blocks, fs`itab, fs`dtab, fs`logged
      ensures |logs| == (k + CHUNK - 1) / CHUNK + if r.Failed? then 1 else 0
      ensures forall t :: 0 <= t < |logs| ==> |logs[t]| <= RedoLog.MAXOPBLOCKS
      ensures r.Failed? ==> logs[|logs| - 1] == {}
      ensures !r.Panicked? ==> Covered(old(fs.blocks), fs.blocks, logs)
      ensures !r.Panicked? ==>
                && Valid() && k <= |src| && off == old(off) + k
                && (k > 0 ==> old(off) <= |old(Bytes())|)
                && Bytes() == (if k == 0 then old(Bytes()) else Overwrite(old(Bytes()), old(off), src[..k]))
                && OthersSame(old(fs.blocks))
      ensures r.Done? ==> k == |src|
      ensures r.Failed? ==> && k < |src| && WholeChunks(k)
                            && (old(off) > |old(Bytes())| || old(off) + k + Piece(|src| - k) > MAXSIZE)
      ensures !r.Panicked? ==>
                (r.Done? <==> src == [] || (old(off) <= |old(Bytes())| && old(off) + |src| <= MAXSIZE))
      ensures r.Panicked? <==>
                && old(off) <= |old(Bytes())|
                && old(|FreeBlocks(fs.sb, fs.blocks)|) < Needs(|old(Bytes())|, old(off) + Reach(old(off), |src|))
      ensures r.Panicked? ==> |fs.blocks| == fs.sb.size && FreeBlocks(fs.sb, fs.blocks) == {}
      ensures !r.Panicked? && old(NoHoles(fs.blocks, fs.itab)) ==> NoHoles(fs.blocks, fs.itab)
    {
      hide Overwrite, Bytes, Valid, OthersSame, WholeChunks, FreeBlocks, Needs, Reach, NoHoles, Covered;
      ghost var bytes, off0, blocks0 := Bytes(), off, fs.blocks;
      FsSized();
      ghost var room := |FreeBlocks(fs.sb, fs.blocks)|;
      if off <= |bytes| {
        NothingNeeded(|bytes|, off);
      }
      ReachAll(off, |src|);
      var n := |src|;
      var i := 0;
      logs := [];
      CoveredNone(blocks0);
      ChunkCount(0);
      k := 0;
      NoChunk();
      OthersSelf(blocks0);
      while i < n
        invariant i <= n && k == i && Valid() && off == off0 + i && (i < n ==> WholeChunks(i))
        invariant i == 0 ==> Bytes() == bytes
        invariant i > 0 ==> off0 <= |bytes| && Bytes() == Overwrite(bytes, off0, src[..i]) && off0 + i <= MAXSIZE
        invariant OthersSame(blocks0) && fs.sb.Ok() && |fs.blocks| == fs.sb.size
        invariant |bytes| <= MAXSIZE && (off0 <= |bytes| ==>
                    |Bytes()| == Max(|bytes|, off0 + i)
                      && |FreeBlocks(fs.sb, fs.blocks)| == room - Needs(|bytes|, off0 + i))
        invariant |logs| == (i + CHUNK - 1) / CHUNK && forall t :: 0 <= t < |logs| ==> |logs[t]| <= RedoLog.MAXOPBLOCKS
        invariant Covered(blocks0, fs.blocks, logs)
        invariant old(NoHoles(fs.blocks, fs.itab)) ==> NoHoles(fs.blocks, fs.itab)
      {
        var n1 := Piece(n - i);
        NextChunk(i);
        if i > 0 {
          OverwriteTwice(bytes, off0, src, i, n1);
        } else {
          assert src[..n1] == src[0..n1];
        }
        if off0 <= |bytes| {
          ChunkPlan(|bytes|, off0, n, i);
        }
        ghost var blocks1 := fs.blocks;
        r := WriteChunk(src[i..i + n1], blocks0, Bytes(), |FreeBlocks(fs.sb, fs.blocks)|);
        if r.Panicked? {
          return;
        }
        CoveredMore(blocks0, blocks1, fs.blocks, logs, fs.logged);
        logs := logs + [fs.logged];
        if r.Failed? {
          return;
        }
        ChunkSteps(i, n1);
        i := i + n1;
        k := i;
      }
      assert src[..n] == src;
      r := Done;
    }

    /** The files other than this one have not changed since `blocks0`. */
    ghost predicate OthersSame(blocks0: seq<Block>)
      reads this, fs
    {
      forall j :: 0 <= j < |fs.itab| && j != ip ==> SameFile(blocks0, fs.blocks, fs.itab[j])
    }

    lemma OthersSelf(blocks0: seq<Block>)
      requires blocks0 == fs.blocks
      ensures OthersSame(blocks0)
    {
    }

    lemma FsSized()
      requires Valid()
      ensures fs.sb.Ok() && |fs.blocks| == fs.sb.size && |Bytes()| == fs.itab[ip].size <= MAXSIZE
    {
    }

    /** One transaction: begin_op, writei, end_op. `bytes` are the file's contents before it and `room` the number
        of free blocks. */
    method WriteChunk(chunk: seq<byte>, ghost blocks0: seq<Block>, ghost bytes: seq<byte>,
                      ghost room: nat) returns (r: IoResult)
      requires Valid() && 0 < |chunk| <= CHUNK && OthersSame(blocks0) && bytes == Bytes()
      requires fs.sb.Ok() && |fs.blocks| == fs.sb.size && room == |FreeBlocks(fs.sb, fs.blocks)|
      modifies this, fs`blocks, fs`itab, fs`dtab, fs`logged
      ensures r.Failed? <==> old(off) > |bytes| || old(off) + |chunk| > MAXSIZE
      ensures r.Failed? ==> Valid() && Bytes() == bytes && off == old(off) && OthersSame(blocks0) && fs.logged == {}
      ensures !r.Panicked? ==> SameBut(old(fs.blocks), fs.blocks, fs.logged)
      ensures r.Done? ==> && Valid() && off == old(off) + |chunk| && OthersSame(blocks0)
                          && Bytes() == Overwrite(bytes, old(off), chunk)
                          && |Bytes()| == Max(|bytes|, old(off) + |chunk|)
                          && |fs.logged| <= RedoLog.MAXOPBLOCKS
      ensures !r.Failed? ==> (r.Panicked? <==> room < Needs(|bytes|, old(off) + |chunk|))
      ensures !r.Panicked? && old(NoHoles(fs.blocks, fs.itab)) ==> NoHoles(fs.blocks, fs.itab)
      ensures |fs.blocks| == fs.sb.size
      ensures |FreeBlocks(fs.sb, fs.blocks)|
           == if r.Failed? then room else if r.Panicked? then 0 else room - Needs(|bytes|, old(off) + |chunk|)
    {
      hide FsOk, Extent, SameFile, Overwrite, FreeBlocks, Needs, WriteLog, Owned, Lowest, LastTouched, NoHoles,
           Contents;
      fs.BeginOp();
      ghost var blocks1, itab1 := fs.blocks, fs.itab;
      ghost var got;
      r, got := fs.Writei(ip, off, chunk);
      if r.Done? {
        ChunkDone(fs.sb, blocks1, itab1, fs.blocks, fs.itab, fs.logged, ip, off, |chunk|, got);
        OthersStill(blocks0, blocks1, fs.blocks, fs.itab, ip);
        off := off + |chunk|;
      }
    }
  }

  /** The blocks outside `logged` are as they were. */
  ghost predicate SameBut(blocks0: seq<Block>, blocks: seq<Block>, logged: set<nat>) {
    |blocks| == |blocks0| && forall b :: 0 <= b < |blocks| && b !in logged ==> blocks[b] == blocks0[b]
  }

  /** Every block that has changed was logged by one of the transactions. */
  ghost predicate Covered(blocks0: seq<Block>, blocks: seq<Block>, logs: seq<set<nat>>) {
    && |blocks| == |blocks0|
    && forall b :: 0 <= b < |blocks| && blocks[b] != blocks0[b] ==> exists t :: 0 <= t < |logs| && b in logs[t]
  }

  lemma CoveredNone(blocks: seq<Block>)
    ensures Covered(blocks, blocks, [])
  {
  }

  lemma CoveredMore(blocks0: seq<Block>, blocks1: seq<Block>, blocks: seq<Block>, logs: seq<set<nat>>,
                    logged: set<nat>)
    requires Covered(blocks0, blocks1, logs) && SameBut(blocks1, blocks, logged)
    ensures Covered(blocks0, blocks, logs + [logged])
  {
    var all := logs + [logged];
    forall b | 0 <= b < |blocks| && blocks[b] != blocks0[b]
      ensures exists t :: 0 <= t < |all| && b in all[t]
    {
      if b in logged {
        assert b in all[|logs|];
      } else {
        var t :| 0 <= t < |logs| && b in logs[t];
        assert b in all[t];
      }
    }
  }

  lemma ChunkCount(k: nat)
    ensures k == 0 ==> (k + CHUNK - 1) / CHUNK == 0
  {
  }

  /** One more chunk, the last of which may be short. */
  lemma ChunkSteps(i: nat, n1: nat)
    requires WholeChunks(i) && 0 < n1 <= CHUNK
    ensures (i + n1 + CHUNK - 1) / CHUNK == (i + CHUNK - 1) / CHUNK + 1
  {
  }

  lemma OthersStill(blocks0: seq<Block>, blocks1: seq<Block>, blocks2: seq<Block>, itab: seq<Inode>, i: nat)
    requires forall j :: 0 <= j < |itab| && j != i ==> SameFile(blocks0, blocks1, itab[j])
                                                       && SameFile(blocks1, blocks2, itab[j])
    ensures forall j :: 0 <= j < |itab| && j != i ==> SameFile(blocks0, blocks2, itab[j])
  {
    hide SameFile;
    forall j | 0 <= j < |itab| && j != i
      ensures SameFile(blocks0, blocks2, itab[j])
    {
      SameFileTrans(blocks0, blocks1, blocks2, itab[j]);
    }
  }

  /** What a chunk's transaction has logged, and how many blocks it leaves. */
  lemma ChunkDone(sb: Super, blocks0: seq<Block>, itab0: seq<Inode>, blocks: seq<Block>, itab: seq<Inode>,
                  logged: set<nat>,
                  i: nat, off: nat, n: nat, got: set<nat>)
    requires FsOk(sb, blocks0, itab0) && FsOk(sb, blocks, itab) && i < |itab0| && n <= CHUNK
    requires Extent(blocks0, itab0[i], itab0[i].size) && off <= itab0[i].size && off + n <= MAXSIZE
    requires |blocks0| == sb.size && sb.Ok() && LastTouched(off, n) <= MAXFILE && Lowest(FreeBlocks(sb, blocks0), got)
    requires |got| == Needs(itab0[i].size, off + n) && Owned(blocks, itab) == Owned(blocks0, itab0) + got
    requires logged == {} + WriteLog(sb, blocks0, itab0[i], i, off, n, got)
    ensures |logged| <= RedoLog.MAXOPBLOCKS && |blocks| == sb.size
    ensures |FreeBlocks(sb, blocks)| == |FreeBlocks(sb, blocks0)| - Needs(itab0[i].size, off + n)
  {
    hide FsOk, Extent, FreeBlocks, Needs, WriteLog, Owned, Lowest, LastTouched, LogBound;
    SizesFit(sb, blocks, itab);
    ChunkFits(off, n);
    WithinBound(sb, blocks0, itab0, i, off, n, got);
    TookLeaves(sb, blocks0, itab0, blocks, itab, got, Needs(itab0[i].size, off + n));
  }

  predicate WholeChunks(k: nat) {
    k % CHUNK == 0
  }

  lemma NoChunk()
    ensures WholeChunks(0)
  {
  }

  lemma NextChunk(k: nat)
    requires WholeChunks(k)
    ensures WholeChunks(k + CHUNK)
  {
  }

  /** n1 = min(left, max) */
  function Piece(left: nat): (m: nat) {
    if left > CHUNK then CHUNK else left
  }

  /** How many bytes a write of n bytes at `off` gets to before a chunk no longer fits in a file. */
  function Reach(off: nat, n: nat): (m: nat) {
    if off + n <= MAXSIZE then n else if off > MAXSIZE then 0 else (MAXSIZE - off) / CHUNK * CHUNK
  }

  lemma ReachAll(off: nat, n: nat)
    ensures off + n <= MAXSIZE ==> Reach(off, n) == n
    ensures n == 0 ==> Reach(off, n) == 0
  {
  }

  /** At a whole number of chunks, the next one fits exactly if the write reaches its end. */
  lemma ReachWhole(off: nat, n: nat, i: nat)
    requires WholeChunks(i) && i < n && off + i <= MAXSIZE
    ensures var n1 := Piece(n - i);
            if off + i + n1 <= MAXSIZE then i + n1 <= Reach(off, n) else i == Reach(off, n)
  {
    if off + n > MAXSIZE {
      var left, r := MAXSIZE - off, Reach(off, n);
      LargestWhole(left);
      hide WholeChunks, Reach;
      NextChunk(i);
      if i + CHUNK <= left && r < i + CHUNK {
        WholeApart(r, i + CHUNK);
      } else if i + CHUNK > left && i < r {
        WholeApart(i, r);
      } else if i + CHUNK > left && r < i {
        WholeApart(r, i);
      }
    }
  }

  lemma LargestWhole(left: nat)
    ensures var r := left / CHUNK * CHUNK; WholeChunks(r) && r <= left < r + CHUNK
  {
  }

  lemma WholeApart(a: nat, b: nat)
    requires WholeChunks(a) && WholeChunks(b) && a < b
    ensures a + CHUNK <= b
  {
  }

  /** What the chunk at byte i of a write needs, and how that adds up to what the whole write needs. */
  lemma ChunkPlan(size: nat, off: nat, n: nat, i: nat)
    requires WholeChunks(i) && i < n && off <= size <= MAXSIZE && off + i <= MAXSIZE
    ensures var n1 := Piece(n - i);
            && Needs(size, off + i) + Needs(Max(size, off + i), off + i + n1) == Needs(size, off + i + n1)
            && (if off + i + n1 <= MAXSIZE then Needs(size, off + i + n1) <= Needs(size, off + Reach(off, n))
                else Needs(size, off + Reach(off, n)) == Needs(size, off + i))
  {
    hide Needs, Reach;
    var n1 := Piece(n - i);
    NeedsInParts(size, off + i, off + i + n1);
    ReachWhole(off, n, i);
    if off + i + n1 <= MAXSIZE {
      NeedsGrows(size, off + i + n1, off + Reach(off, n));
    }
  }

  /** Growing in two steps needs what growing in one does. */
  lemma NeedsInParts(size: nat, a: nat, b: nat)
    requires a <= b
    ensures Needs(size, a) + Needs(Max(size, a), b) == Needs(size, b)
  {
    BlocksGrow(a, b);
    if size < a {
      BlocksGrow(size, a);
    }
  }

  lemma NothingNeeded(size: nat, e: nat)
    requires e <= size
    ensures Needs(size, e) == 0
  {
  }

  lemma OverwriteTwice(s: seq<byte>, off: nat, src: seq<byte>, i: nat, m: nat)
    requires off <= |s| && 0 < i && i + m <= |src|
    ensures off + i <= |Overwrite(s, off, src[..i])|
    ensures Overwrite(Overwrite(s, off, src[..i]), off + i, src[i..i + m]) == Overwrite(s, off, src[..i + m])
  {
    assert src[..i] + src[i..i + m] == src[..i + m];
  }
}
