/** Inodes on disk: eight 16-word records to a block, and what a disk as a whole means as a file system. */
module Dinodes {
  import opened Blocks
  import opened Inodes

  // ---- one inode in its block ----

  /** Words per inode: type, major, minor and link count take two, then come the size and the block pointers. */
  const DWORDS: nat := 16

  ghost predicate Encodable(ip: Inode) {
    ip.size < WORD_LIMIT && forall s :: 0 <= s <= NDIRECT ==> ip.addrs[s] < WORD_LIMIT
  }

  function GetInode(h: Block, t: nat): (ip: Inode)
    requires t < IPB
  {
    RawInode(GetWord(h, DWORDS * t + 2), GetWords(h, DWORDS * t + 3, NDIRECT + 1))
  }

  /** The words of slot u before the size are the same. */
  predicate SameHead(h: Block, r: Block, u: nat)
    requires u < IPB
  {
    GetWord(r, DWORDS * u) == GetWord(h, DWORDS * u) && GetWord(r, DWORDS * u + 1) == GetWord(h, DWORDS * u + 1)
  }

  /** What iupdate stores over slot t: it can be read back, and the other inodes of the block, and this one's type
      and link count, stay. */
  function PutInode(h: Block, t: nat, ip: Inode): (r: Block)
    requires t < IPB && Encodable(ip)
    ensures GetInode(r, t) == ip
    ensures GetWord(r, 16 * t + 2) == ip.size && forall s: nat :: s < 13 ==> GetWord(r, 16 * t + 3 + s) == ip.addrs[s]
    ensures forall u: nat :: u < IPB && u != t ==> GetInode(r, u) == GetInode(h, u)
    ensures forall u: nat :: u < IPB ==> SameHead(h, r, u)
  {
    hide Blocks.GetWord, Blocks.SetWord, Blocks.SetWords;
    var r := SetWords(SetWord(h, DWORDS * t + 2, ip.size), DWORDS * t + 3, ip.addrs);
    assert GetInode(r, t).addrs == ip.addrs;
    OthersRead(h, r, t);
    r
  }

  lemma OthersRead(h: Block, r: Block, t: nat)
    requires t < IPB
    requires forall k: nat :: k < WORDS && !(DWORDS * t + 2 <= k < DWORDS * t + 16) ==> GetWord(r, k) == GetWord(h, k)
    ensures forall u: nat :: u < IPB && u != t ==> GetInode(r, u) == GetInode(h, u)
    ensures forall u: nat :: u < IPB ==> SameHead(h, r, u)
  {
    hide Blocks.GetWord;
    forall u: nat | u < IPB && u != t
      ensures GetInode(r, u) == GetInode(h, u)
    {
      assert GetInode(r, u).addrs == GetInode(h, u).addrs;
    }
  }

  // ---- a whole disk ----

  /** The first n inodes on disk. */
  function InodesOf(sb: Super, d: seq<Block>, n: nat): (itab: seq<Inode>)
    requires sb.Ok() && |d| == sb.size && n <= sb.ninodes
    ensures |itab| == n
  {
    seq(n, i requires 0 <= i < n => InodeAt(sb, d, i))
  }

  function InodeAt(sb: Super, d: seq<Block>, i: nat): (ip: Inode)
    requires sb.Ok() && |d| == sb.size && i < sb.ninodes
  {
    InodeBlockIn(sb, i);
    GetInode(d[sb.IBlock(i)], i % IPB)
  }

  lemma InodeBlockIn(sb: Super, i: nat)
    requires sb.Ok() && i < sb.ninodes
    ensures sb.inodestart <= sb.IBlock(i) < sb.bmapstart < sb.size
  {
  }

  /** A disk that is a consistent file system: every block is metadata, free, or in exactly one place of one file,
      as the bitmap says, and no file has holes. */
  ghost predicate DiskOk(sb: Super, d: seq<Block>, n: nat) {
    && sb.Ok() && |d| == sb.size && n <= sb.ninodes
    && FsOk(sb, d, InodesOf(sb, d, n)) && NoHoles(d, InodesOf(sb, d, n))
  }

  /** Two arrays of blocks with the same bitmap and data blocks. */
  ghost predicate SameAbove(lo: nat, d: seq<Block>, e: seq<Block>) {
    |d| == |e| && forall b :: lo <= b < |d| ==> d[b] == e[b]
  }

  /** The file system of `blocks` and `itab` is what the disk holds: its bitmap and data blocks, and the inodes in
      their blocks. */
  ghost predicate Holds(sb: Super, d: seq<Block>, blocks: seq<Block>, itab: seq<Inode>) {
    && sb.Ok() && |d| == sb.size && |itab| <= sb.ninodes
    && SameAbove(sb.bmapstart, d, blocks) && InodesOf(sb, d, |itab|) == itab
  }

  lemma SamePointers(sb: Super, d: seq<Block>, e: seq<Block>, itab: seq<Inode>)
    requires sb.Ok() && |d| == sb.size && SameAbove(sb.bmapstart, d, e) && Disjoint(sb, d, itab)
    ensures SamePtrs(d, e, itab)
  {
    forall i | 0 <= i < |itab|
      ensures var x := itab[i].addrs[NDIRECT]; x != 0 && x < |d| ==> e[x] == d[x]
    {
      assert Ptr(d, itab[i], NDIRECT) == itab[i].addrs[NDIRECT];
    }
    PtrsUnmoved(sb, d, e, itab);
  }

  /** What a file system means depends on its bitmap, its data blocks and its inodes only. */
  lemma SameFs(sb: Super, d: seq<Block>, e: seq<Block>, itab: seq<Inode>)
    requires FsOk(sb, d, itab) && SameAbove(sb.bmapstart, d, e)
    ensures FsOk(sb, e, itab) && (NoHoles(d, itab) ==> NoHoles(e, itab))
  {
    SamePointers(sb, d, e, itab);
    SamePtrsOwned(sb, d, e, itab);
    hide Owned, Disjoint, Ptr;
    forall b: nat | b < sb.size
      ensures Used(sb, e, b) == Used(sb, d, b)
    {
      BitmapBlockIn(sb, b);
    }
    hide Used;
    if NoHoles(d, itab) {
      forall j | 0 <= j < |itab|
        ensures Extent(e, itab[j], itab[j].size)
      {
        ExtentSamePtrs(d, e, itab, j, itab[j].size);
      }
    }
  }

  lemma HoldsOk(sb: Super, d: seq<Block>, blocks: seq<Block>, itab: seq<Inode>)
    requires Holds(sb, d, blocks, itab) && FsOk(sb, blocks, itab) && NoHoles(blocks, itab)
    ensures DiskOk(sb, d, |itab|)
  {
    hide FsOk, NoHoles, InodesOf;
    SameFs(sb, blocks, d, itab);
  }

  /** A consistent disk can be mounted: it holds the file system read from it. */
  lemma OkHolds(sb: Super, d: seq<Block>, n: nat)
    requires DiskOk(sb, d, n)
    ensures sb.Ok() && |d| == sb.size && n <= sb.ninodes && Holds(sb, d, d, InodesOf(sb, d, n))
  {
  }

  /** Nothing below the inode blocks matters. */
  lemma OkAbove(sb: Super, d: seq<Block>, e: seq<Block>, n: nat)
    requires DiskOk(sb, d, n) && SameAbove(sb.inodestart, d, e)
    ensures DiskOk(sb, e, n)
  {
    hide FsOk, NoHoles, Blocks.GetWord;
    forall i | 0 <= i < n
      ensures InodesOf(sb, d, n)[i] == InodesOf(sb, e, n)[i]
    {
      InodeBlockIn(sb, i);
    }
    assert InodesOf(sb, d, n) == InodesOf(sb, e, n);
    SameFs(sb, d, e, InodesOf(sb, d, n));
  }

  // ---- a call's writes ----

  /** In a file system without holes every inode fits its record. */
  lemma AllEncodable(sb: Super, blocks: seq<Block>, itab: seq<Inode>, i: nat)
    requires FsOk(sb, blocks, itab) && NoHoles(blocks, itab) && i < |itab|
    ensures Encodable(itab[i])
  {
    hide BitmapIs, Owned, Extent;
    forall s | 0 <= s <= NDIRECT
      ensures itab[i].addrs[s] < WORD_LIMIT
    {
      assert Ptr(blocks, itab[i], s) == itab[i].addrs[s];
    }
  }

  /** What a call on inode i that ends with `blocks` and `ip` writes to block b, over its contents h. */
  ghost function NewBlock(sb: Super, blocks: seq<Block>, i: nat, ip: Inode, b: nat, h: Block): (r: Block)
    requires Encodable(ip) && b < |blocks|
  {
    if b < sb.bmapstart then PutInode(h, i % IPB, ip) else blocks[b]
  }

  /** d is d0 with the blocks `done` written. */
  ghost predicate Written(sb: Super, d0: seq<Block>, d: seq<Block>, blocks: seq<Block>, i: nat, ip: Inode,
                          done: set<nat>) {
    && Encodable(ip) && |d| == |d0| == |blocks|
    && forall b :: 0 <= b < |d| ==> d[b] == if b in done then NewBlock(sb, blocks, i, ip, b, d0[b]) else d0[b]
  }

  lemma WrittenNone(sb: Super, d: seq<Block>, blocks: seq<Block>, i: nat, ip: Inode)
    requires Encodable(ip) && |d| == |blocks|
    ensures Written(sb, d, d, blocks, i, ip, {})
  {
  }

  lemma WrittenMore(sb: Super, d0: seq<Block>, d: seq<Block>, blocks: seq<Block>, i: nat, ip: Inode, done: set<nat>,
                    b: nat)
    requires Written(sb, d0, d, blocks, i, ip, done) && b < |d| && b !in done
    ensures d[b] == d0[b]
    ensures Written(sb, d0, d[b := NewBlock(sb, blocks, i, ip, b, d[b])], blocks, i, ip, done + {b})
  {
    hide PutInode;
  }

  /** Once all logged blocks are written, the disk holds the new file system. */
  lemma WrittenHolds(sb: Super, d0: seq<Block>, d: seq<Block>, blocks0: seq<Block>, itab0: seq<Inode>,
                     blocks: seq<Block>, itab: seq<Inode>, i: nat, logged: set<nat>)
    requires Holds(sb, d0, blocks0, itab0) && i < |itab0| == |itab| && itab == itab0[i := itab[i]]
    requires CallTracks(sb, i, blocks0, {}, blocks, logged) && (itab != itab0 ==> sb.IBlock(i) in logged)
    requires Written(sb, d0, d, blocks, i, itab[i], logged)
    ensures Holds(sb, d, blocks, itab)
  {
    hide Blocks.GetWord, PutInode;
    forall b | sb.bmapstart <= b < |d|
      ensures d[b] == blocks[b]
    {
    }
    forall j: nat | j < |itab|
      ensures InodesOf(sb, d, |itab|)[j] == itab[j]
    {
      InodeBlockIn(sb, j);
      assert InodesOf(sb, d0, |itab|)[j] == itab0[j];
      OtherSlot(i, j, sb);
    }
    assert InodesOf(sb, d, |itab|) == itab;
  }

  lemma OtherSlot(i: nat, j: nat, sb: Super)
    ensures sb.IBlock(i) == sb.IBlock(j) && i % IPB == j % IPB ==> i == j
  {
  }
}
