/** The inode block layer: block allocation, the direct and indirect block map, truncation, and
    byte-granular reads and writes, over the logical block array that the buffer cache provides. */
module Inodes {
  import opened Basics
  import opened Blocks
  import opened Bitmap

  const NDIRECT: nat := 12
  const NINDIRECT: nat := WORDS
  const MAXFILE: nat := NDIRECT + NINDIRECT
  const IPB: nat := 8

  datatype RawInode = RawInode(size: nat, addrs: seq<nat>)

  type Inode = ip: RawInode | |ip.addrs| == NDIRECT + 1 witness RawInode(0, seq(NDIRECT + 1, _ => 0))

  /** Blocks below `datastart` are metadata: boot block, superblock, log, inodes and bitmap. */
  datatype Super = Super(size: nat, inodestart: nat, bmapstart: nat, datastart: nat, ninodes: nat) {
    predicate Ok() {
      && 0 < datastart <= size < WORD_LIMIT
      && inodestart + ninodes / IPB < bmapstart
      && bmapstart + size / BPB < datastart
    }

    function IBlock(inum: nat): nat {
      inodestart + inum / IPB
    }

    predicate InBitmap(b: int) {
      bmapstart <= b <= bmapstart + size / BPB
    }

    function BBlock(b: nat): (r: nat)
      ensures Ok() && b < size ==> r < datastart
    {
      bmapstart + b / BPB
    }
  }

  function BitIndex(b: nat): (r: nat)
    ensures r < BPB
  {
    b % BPB
  }

  // ---- pointers ----

  /** The block pointers of an inode: slots 0..11 are direct, slot 12 is the indirect block, slots
      13..140 are the words of the indirect block. A zero means no block. */
  const SLOTS: nat := NDIRECT + 1 + NINDIRECT

  function Ptr(blocks: seq<Block>, ip: Inode, s: nat): (p: nat)
    requires s < SLOTS
  {
    if s <= NDIRECT then ip.addrs[s]
    else if ip.addrs[NDIRECT] == 0 || ip.addrs[NDIRECT] >= |blocks| then 0
    else GetWord(blocks[ip.addrs[NDIRECT]], s - NDIRECT - 1)
  }

  ghost predicate InRange(sb: Super, p: nat) {
    sb.datastart <= p < sb.size
  }

  /** Every pointer is to a data block, and no block is pointed to twice. */
  ghost predicate Disjoint(sb: Super, blocks: seq<Block>, itab: seq<Inode>) {
    && (forall i, s :: 0 <= i < |itab| && 0 <= s < SLOTS && Ptr(blocks, itab[i], s) != 0
                       ==> InRange(sb, Ptr(blocks, itab[i], s)))
    && (forall i, s, j, t :: 0 <= i < |itab| && 0 <= s < SLOTS && 0 <= j < |itab| && 0 <= t < SLOTS
                             && Ptr(blocks, itab[i], s) != 0 && Ptr(blocks, itab[i], s) == Ptr(blocks, itab[j], t)
                             ==> i == j && s == t)
  }

  ghost function Owned(blocks: seq<Block>, itab: seq<Inode>): set<nat> {
    set i, s | 0 <= i < |itab| && 0 <= s < SLOTS && Ptr(blocks, itab[i], s) != 0 :: Ptr(blocks, itab[i], s)
  }

  predicate Used(sb: Super, blocks: seq<Block>, b: nat)
    requires sb.Ok() && |blocks| == sb.size && b < sb.size
  {
    BlockBit(blocks[sb.BBlock(b)], BitIndex(b))
  }

  /** The bitmap marks the metadata blocks and `used`, and nothing else. */
  ghost predicate BitmapIs(sb: Super, blocks: seq<Block>, used: set<nat>)
    requires sb.Ok() && |blocks| == sb.size
  {
    forall b: nat :: b < sb.size ==> (Used(sb, blocks, b) <==> b < sb.datastart || b in used)
  }

  /** Two block arrays that agree on everything an inode pointer can reach. */
  ghost predicate SamePtrs(blocks: seq<Block>, blocks': seq<Block>, itab: seq<Inode>) {
    forall i, s :: 0 <= i < |itab| && 0 <= s < SLOTS ==> Ptr(blocks', itab[i], s) == Ptr(blocks, itab[i], s)
  }

  lemma SamePtrsOwned(sb: Super, blocks: seq<Block>, blocks': seq<Block>, itab: seq<Inode>)
    requires SamePtrs(blocks, blocks', itab)
    ensures Owned(blocks', itab) == Owned(blocks, itab)
    ensures Disjoint(sb, blocks, itab) ==> Disjoint(sb, blocks', itab)
  {
  }

  /** Changing blocks that are not indirect blocks moves no pointer. */
  lemma PtrsUnmoved(sb: Super, blocks: seq<Block>, blocks': seq<Block>, itab: seq<Inode>)
    requires Disjoint(sb, blocks, itab) && |blocks'| == |blocks|
    requires forall i :: 0 <= i < |itab| ==>
               var x := itab[i].addrs[NDIRECT]; x != 0 && x < |blocks| ==> blocks'[x] == blocks[x]
    ensures SamePtrs(blocks, blocks', itab)
  {
  }

  /** Filling one empty slot with an unowned data block. */
  lemma LinkSlot(sb: Super, blocks: seq<Block>, itab: seq<Inode>, blocks': seq<Block>, itab': seq<Inode>,
                 i: nat, s: nat, b: nat)
    requires Disjoint(sb, blocks, itab) && |itab'| == |itab| && i < |itab| && s < SLOTS
    requires b != 0 && InRange(sb, b) && b !in Owned(blocks, itab)
    requires Ptr(blocks, itab[i], s) == 0 && Ptr(blocks', itab'[i], s) == b
    requires forall j, t :: 0 <= j < |itab| && 0 <= t < SLOTS && (j != i || t != s)
                            ==> Ptr(blocks', itab'[j], t) == Ptr(blocks, itab[j], t)
    ensures Disjoint(sb, blocks', itab')
    ensures Owned(blocks', itab') == Owned(blocks, itab) + {b}
  {
    forall j, t | 0 <= j < |itab| && 0 <= t < SLOTS && Ptr(blocks, itab[j], t) != 0
      ensures Ptr(blocks, itab[j], t) in Owned(blocks, itab)
    {
    }
    assert forall x :: x in Owned(blocks, itab) ==> x in Owned(blocks', itab');
  }

  // ---- allocation ----

  /** Mark block b in use and zero it. */
  function AllocAt(sb: Super, blocks: seq<Block>, b: nat): (r: seq<Block>)
    requires sb.Ok() && |blocks| == sb.size && b < sb.size && !Used(sb, blocks, b)
    ensures |r| == |blocks|
  {
    blocks[sb.BBlock(b) := MarkUsed(blocks[sb.BBlock(b)], BitIndex(b))][b := ZeroBlock()]
  }

  function FreeAt(sb: Super, blocks: seq<Block>, b: nat): (r: seq<Block>)
    requires sb.Ok() && |blocks| == sb.size && b < sb.size && Used(sb, blocks, b)
    ensures |r| == |blocks|
  {
    blocks[sb.BBlock(b) := MarkFree(blocks[sb.BBlock(b)], BitIndex(b))]
  }

  lemma SameBit(sb: Super, b: nat, c: nat)
    requires sb.BBlock(b) == sb.BBlock(c) && BitIndex(b) == BitIndex(c)
    ensures b == c
  {
    assert b / BPB == c / BPB;
  }

  lemma FreeBits(sb: Super, blocks: seq<Block>, b: nat, used: set<nat>)
    requires sb.Ok() && |blocks| == sb.size && InRange(sb, b) && b in used && BitmapIs(sb, blocks, used)
    ensures Used(sb, blocks, b)
    ensures BitmapIs(sb, FreeAt(sb, blocks, b), used - {b})
    ensures forall x :: sb.datastart <= x < sb.size ==> FreeAt(sb, blocks, b)[x] == blocks[x]
  {
    hide Super.BBlock, BitIndex, MarkFree, BlockBit;
    var r := FreeAt(sb, blocks, b);
    MarkFreeBits(blocks[sb.BBlock(b)], BitIndex(b));
    forall c: nat | c < sb.size
      ensures Used(sb, r, c) <==> c < sb.datastart || c in used - {b}
    {
      assert Used(sb, blocks, c) <==> c < sb.datastart || c in used;
      if sb.BBlock(c) == sb.BBlock(b) && BitIndex(c) == BitIndex(b) {
        SameBit(sb, b, c);
      }
    }
  }

  lemma AllocBits(sb: Super, blocks: seq<Block>, b: nat, used: set<nat>)
    requires sb.Ok() && |blocks| == sb.size && b < sb.size && !Used(sb, blocks, b) && BitmapIs(sb, blocks, used)
    ensures InRange(sb, b) && b !in used
    ensures BitmapIs(sb, AllocAt(sb, blocks, b), used + {b})
    ensures forall x :: sb.datastart <= x < sb.size && x != b ==> AllocAt(sb, blocks, b)[x] == blocks[x]
  {
    hide Super.BBlock, BitIndex, MarkUsed, BlockBit;
    var r := AllocAt(sb, blocks, b);
    MarkUsedBits(blocks[sb.BBlock(b)], BitIndex(b));
    assert b >= sb.datastart;
    forall c: nat | c < sb.size
      ensures Used(sb, r, c) <==> c < sb.datastart || c in used + {b}
    {
      assert Used(sb, blocks, c) <==> c < sb.datastart || c in used;
      if sb.BBlock(c) == sb.BBlock(b) && BitIndex(c) == BitIndex(b) {
        SameBit(sb, b, c);
      }
    }
  }

  /** A freshly allocated block is a data block that nobody owns, and allocating it moves no pointer. */
  lemma AllocKeeps(sb: Super, blocks: seq<Block>, itab: seq<Inode>, b: nat)
    requires sb.Ok() && |blocks| == sb.size && b < sb.size && !Used(sb, blocks, b)
    requires Disjoint(sb, blocks, itab) && BitmapIs(sb, blocks, Owned(blocks, itab))
    ensures b != 0 && InRange(sb, b) && b !in Owned(blocks, itab)
    ensures var r := AllocAt(sb, blocks, b);
            && SamePtrs(blocks, r, itab) && Disjoint(sb, r, itab)
            && Owned(r, itab) == Owned(blocks, itab)
            && BitmapIs(sb, r, Owned(blocks, itab) + {b})
            && forall x :: sb.datastart <= x < sb.size && x != b ==> r[x] == blocks[x]
  {
    hide AllocAt, BitmapIs, Used;
    AllocBits(sb, blocks, b, Owned(blocks, itab));
    var r := AllocAt(sb, blocks, b);
    forall i | 0 <= i < |itab|
      ensures var x := itab[i].addrs[NDIRECT]; x != 0 && x < |blocks| ==> r[x] == blocks[x]
    {
      var x := Ptr(blocks, itab[i], NDIRECT);
      assert x != 0 ==> x in Owned(blocks, itab);
    }
    PtrsUnmoved(sb, blocks, r, itab);
    SamePtrsOwned(sb, blocks, r, itab);
  }

  ghost predicate FsOk(sb: Super, blocks: seq<Block>, itab: seq<Inode>) {
    && sb.Ok() && |blocks| == sb.size
    && Disjoint(sb, blocks, itab)
    && BitmapIs(sb, blocks, Owned(blocks, itab))
  }

  function SetAddr(itab: seq<Inode>, i: nat, s: nat, b: nat): (r: seq<Inode>)
    requires i < |itab| && s <= NDIRECT
    ensures |r| == |itab|
  {
    itab[i := itab[i].(addrs := itab[i].addrs[s := b])]
  }

  /** The array after word w of indirect block x has been pointed at block b. */
  function SetEntry(blocks: seq<Block>, x: nat, w: nat, b: nat): (r: seq<Block>)
    requires x < |blocks| && w < NINDIRECT && b < WORD_LIMIT
    ensures |r| == |blocks|
  {
    blocks[x := SetWord(blocks[x], w, b)]
  }

  /** All pointers except slot s of inode i are as they were. */
  ghost predicate PtrsExcept(blocks: seq<Block>, itab: seq<Inode>, blocks': seq<Block>, itab': seq<Inode>, i: nat,
                             s: nat) {
    && |itab'| == |itab|
    && forall j, t :: 0 <= j < |itab| && 0 <= t < SLOTS && (j != i || t != s)
                      ==> Ptr(blocks', itab'[j], t) == Ptr(blocks, itab[j], t)
  }

  /** Contents of the blocks owned before are unchanged, except for block x. */
  ghost predicate DataExcept(sb: Super, blocks: seq<Block>, itab: seq<Inode>, blocks': seq<Block>, x: nat) {
    |blocks'| == |blocks| == sb.size &&
    forall y :: y in Owned(blocks, itab) && y < sb.size && y != x ==> blocks'[y] == blocks[y]
  }

  lemma LinkDirect(sb: Super, blocks: seq<Block>, itab: seq<Inode>, i: nat, s: nat, b: nat)
    requires FsOk(sb, blocks, itab) && i < |itab| && s <= NDIRECT && itab[i].addrs[s] == 0
    requires b < sb.size && !Used(sb, blocks, b)
    ensures var blocks', itab' := AllocAt(sb, blocks, b), SetAddr(itab, i, s, b);
            && FsOk(sb, blocks', itab')
            && b != 0 && InRange(sb, b) && b !in Owned(blocks, itab)
            && blocks'[b] == ZeroBlock()
            && PtrsExcept(blocks, itab, blocks', itab', i, s)
            && DataExcept(sb, blocks, itab, blocks', b)
            && Owned(blocks', itab') == Owned(blocks, itab) + {b}
  {
    hide BitmapIs, Used, Owned, Blocks.GetWord, Blocks.Zeros;
    AllocKeeps(sb, blocks, itab, b);
    var blocks', itab' := AllocAt(sb, blocks, b), SetAddr(itab, i, s, b);
    assert blocks'[b] == ZeroBlock() by {
      BBlockIsMeta(sb, b);
    }
    forall j, t | 0 <= j < |itab| && 0 <= t < SLOTS && (j != i || t != s)
      ensures Ptr(blocks', itab'[j], t) == Ptr(blocks, itab[j], t)
    {
      assert Ptr(blocks', itab[j], t) == Ptr(blocks, itab[j], t);
    }
    OwnedInRange(sb, blocks, itab);
    LinkSlot(sb, blocks, itab, blocks', itab', i, s, b);
  }

  lemma BBlockIsMeta(sb: Super, b: nat)
    requires sb.Ok() && b < sb.size
    ensures sb.BBlock(b) < sb.datastart
  {
  }

  lemma OwnedInRange(sb: Super, blocks: seq<Block>, itab: seq<Inode>)
    requires Disjoint(sb, blocks, itab)
    ensures forall y :: y in Owned(blocks, itab) ==> InRange(sb, y)
  {
  }

  lemma LinkEntry(sb: Super, blocks: seq<Block>, itab: seq<Inode>, i: nat, w: nat, b: nat)
    requires FsOk(sb, blocks, itab) && i < |itab| && w < NINDIRECT && itab[i].addrs[NDIRECT] != 0
    requires Ptr(blocks, itab[i], NDIRECT + 1 + w) == 0
    requires b < sb.size && !Used(sb, blocks, b)
    ensures InRange(sb, itab[i].addrs[NDIRECT])
    ensures var x := itab[i].addrs[NDIRECT];
            var blocks' := SetEntry(AllocAt(sb, blocks, b), x, w, b);
            && FsOk(sb, blocks', itab)
            && b != 0 && InRange(sb, b) && b !in Owned(blocks, itab) && b != x
            && blocks'[b] == ZeroBlock()
            && Ptr(blocks', itab[i], NDIRECT + 1 + w) == b
            && PtrsExcept(blocks, itab, blocks', itab, i, NDIRECT + 1 + w)
            && (forall y :: y in Owned(blocks, itab) && y != x ==> InRange(sb, y) && blocks'[y] == blocks[y])
            && Owned(blocks', itab) == Owned(blocks, itab) + {b}
  {
    hide Used, Blocks.GetWord, Blocks.SetWord, Blocks.Zeros;
    AllocKeeps(sb, blocks, itab, b);
    var x := itab[i].addrs[NDIRECT];
    assert x == Ptr(blocks, itab[i], NDIRECT);
    assert x in Owned(blocks, itab);
    var blocks1 := AllocAt(sb, blocks, b);
    var blocks' := SetEntry(blocks1, x, w, b);
    assert blocks1[b] == ZeroBlock() by {
      BBlockIsMeta(sb, b);
    }
    hide AllocAt;
    forall j, t | 0 <= j < |itab| && 0 <= t < SLOTS && (j != i || t != NDIRECT + 1 + w)
      ensures Ptr(blocks', itab[j], t) == Ptr(blocks, itab[j], t)
    {
      assert Ptr(blocks1, itab[j], t) == Ptr(blocks, itab[j], t);
      assert itab[j].addrs[NDIRECT] == Ptr(blocks, itab[j], NDIRECT);
    }
    LinkSlot(sb, blocks, itab, blocks', itab, i, NDIRECT + 1 + w, b);
    OwnedInRange(sb, blocks, itab);
    EntryBits(sb, blocks1, x, w, b, Owned(blocks, itab) + {b});
  }

  lemma EntryBits(sb: Super, blocks: seq<Block>, x: nat, w: nat, b: nat, used: set<nat>)
    requires sb.Ok() && |blocks| == sb.size && InRange(sb, x) && w < NINDIRECT && b < WORD_LIMIT
    requires BitmapIs(sb, blocks, used)
    ensures BitmapIs(sb, SetEntry(blocks, x, w, b), used)
  {
    hide Blocks.SetWord, BlockBit;
    var r := SetEntry(blocks, x, w, b);
    forall c: nat | c < sb.size
      ensures Used(sb, r, c) == Used(sb, blocks, c)
    {
      BBlockIsMeta(sb, c);
    }
  }

  function Slot(bn: nat): (s: nat)
    ensures bn < MAXFILE ==> s < SLOTS
  {
    if bn < NDIRECT then bn else bn + 1
  }

  /** What bmap does when it returns block p for file block bn of inode i: nothing if there was
      one; otherwise a zeroed block, and if need be a new indirect block, that nobody owned. */
  ghost predicate Mapped(sb: Super, blocks: seq<Block>, itab: seq<Inode>, blocks': seq<Block>, itab': seq<Inode>,
                         i: nat, bn: nat, p: nat)
    requires i < |itab| && bn < MAXFILE
  {
    var s := Slot(bn);
    && FsOk(sb, blocks', itab') && |blocks'| == |blocks|
    && |itab'| == |itab| && itab' == itab[i := itab'[i]] && itab'[i].size == itab[i].size
    && Ptr(blocks', itab'[i], s) == p && InRange(sb, p)
    && (Ptr(blocks, itab[i], s) != 0 ==> blocks' == blocks && itab' == itab)
    && (Ptr(blocks, itab[i], s) == 0 ==> p !in Owned(blocks, itab) && blocks'[p] == ZeroBlock())
    && (forall j, t :: 0 <= j < |itab| && 0 <= t < SLOTS && (j != i || (t != s && t != NDIRECT))
                       ==> Ptr(blocks', itab'[j], t) == Ptr(blocks, itab[j], t))
    && (bn < NDIRECT ==> itab'[i].addrs[NDIRECT] == itab[i].addrs[NDIRECT])
    && (bn >= NDIRECT ==>
          && itab'[i].addrs[NDIRECT] != 0
          && (itab[i].addrs[NDIRECT] != 0 ==> itab'[i].addrs[NDIRECT] == itab[i].addrs[NDIRECT]))
    && (forall y :: y in Owned(blocks, itab) && (bn < NDIRECT || y != itab'[i].addrs[NDIRECT])
                    ==> y < sb.size && blocks'[y] == blocks[y])
  }

  lemma MappedAlready(sb: Super, blocks: seq<Block>, itab: seq<Inode>, i: nat, bn: nat)
    requires FsOk(sb, blocks, itab) && i < |itab| && bn < MAXFILE && Ptr(blocks, itab[i], Slot(bn)) != 0
    ensures Mapped(sb, blocks, itab, blocks, itab, i, bn, Ptr(blocks, itab[i], Slot(bn)))
  {
    hide Blocks.GetWord, BitmapIs;
    OwnedInRange(sb, blocks, itab);
  }

  lemma MappedEntry(sb: Super, blocks: seq<Block>, itab: seq<Inode>, i: nat, w: nat, b: nat)
    requires FsOk(sb, blocks, itab) && i < |itab| && w < NINDIRECT && itab[i].addrs[NDIRECT] != 0
    requires Ptr(blocks, itab[i], NDIRECT + 1 + w) == 0
    requires b < sb.size && !Used(sb, blocks, b)
    ensures InRange(sb, itab[i].addrs[NDIRECT])
    ensures Mapped(sb, blocks, itab, SetEntry(AllocAt(sb, blocks, b), itab[i].addrs[NDIRECT], w, b), itab,
                   i, NDIRECT + w, b)
  {
    LinkEntry(sb, blocks, itab, i, w, b);
    hide Blocks.GetWord, BitmapIs, Disjoint, Used, AllocAt, Owned, SetEntry, Ptr;
  }

  lemma MappedBoth(sb: Super, blocks: seq<Block>, itab: seq<Inode>, i: nat, w: nat, x: nat, b: nat)
    requires FsOk(sb, blocks, itab) && i < |itab| && w < NINDIRECT && itab[i].addrs[NDIRECT] == 0
    requires x < sb.size && !Used(sb, blocks, x)
    requires b < sb.size && !Used(sb, AllocAt(sb, blocks, x), b)
    ensures InRange(sb, x)
    ensures Mapped(sb, blocks, itab, SetEntry(AllocAt(sb, AllocAt(sb, blocks, x), b), x, w, b),
                   SetAddr(itab, i, NDIRECT, x), i, NDIRECT + w, b)
  {
    hide BitmapIs, Disjoint, Used, AllocAt, Owned, Blocks.GetWord;
    LinkDirect(sb, blocks, itab, i, NDIRECT, x);
    var blocks1, itab1 := AllocAt(sb, blocks, x), SetAddr(itab, i, NDIRECT, x);
    assert Ptr(blocks1, itab1[i], NDIRECT + 1 + w) == 0;
    LinkEntry(sb, blocks1, itab1, i, w, b);
    OwnedInRange(sb, blocks, itab);
    hide SetEntry, Ptr;
  }

  // ---- truncation ----

  /** The order in which itrunc frees the slots: direct, indirectly mapped, indirect. */
  function TruncSlot(k: nat): (s: nat)
    requires k < SLOTS
    ensures s < SLOTS
  {
    if k < MAXFILE then Slot(k) else NDIRECT
  }

  ghost function Freed(blocks: seq<Block>, ip: Inode, n: nat): set<nat>
    requires n <= SLOTS
  {
    set k | 0 <= k < n && Ptr(blocks, ip, TruncSlot(k)) != 0 :: Ptr(blocks, ip, TruncSlot(k))
  }

  /** The blocks an inode owns. */
  ghost function OwnedBy(blocks: seq<Block>, ip: Inode): set<nat> {
    set s | 0 <= s < SLOTS && Ptr(blocks, ip, s) != 0 :: Ptr(blocks, ip, s)
  }

  /** How far itrunc has got: the bitmap has lost the first n of the inode's pointers, in TruncSlot
      order, and no data block has changed. */
  ghost predicate Truncating(sb: Super, blocks0: seq<Block>, itab0: seq<Inode>, i: nat, n: nat, blocks: seq<Block>) {
    && FsOk(sb, blocks0, itab0) && i < |itab0| && n <= SLOTS && |blocks| == sb.size
    && BitmapIs(sb, blocks, Owned(blocks0, itab0) - Freed(blocks0, itab0[i], n))
    && forall x :: sb.datastart <= x < sb.size ==> blocks[x] == blocks0[x]
  }

  lemma FreedGrows(blocks: seq<Block>, ip: Inode, n: nat)
    requires n < SLOTS
    ensures var p := Ptr(blocks, ip, TruncSlot(n));
            Freed(blocks, ip, n + 1) == Freed(blocks, ip, n) + if p == 0 then {} else {p}
  {
    var p := Ptr(blocks, ip, TruncSlot(n));
    assert forall x :: x in Freed(blocks, ip, n) ==> x in Freed(blocks, ip, n + 1);
    assert p != 0 ==> p in Freed(blocks, ip, n + 1);
  }

  /** The next pointer, when it is not zero, is still marked in the bitmap, and freeing it is the
      next step of truncation. */
  lemma TruncStep(sb: Super, blocks0: seq<Block>, itab0: seq<Inode>, i: nat, n: nat, blocks: seq<Block>)
    requires Truncating(sb, blocks0, itab0, i, n, blocks) && n < SLOTS
    ensures var p := Ptr(blocks0, itab0[i], TruncSlot(n));
            if p == 0 then Truncating(sb, blocks0, itab0, i, n + 1, blocks)
            else InRange(sb, p) && Used(sb, blocks, p)
                 && Truncating(sb, blocks0, itab0, i, n + 1, FreeAt(sb, blocks, p))
  {
    var p := Ptr(blocks0, itab0[i], TruncSlot(n));
    FreedGrows(blocks0, itab0[i], n);
    if p != 0 {
      var used := Owned(blocks0, itab0) - Freed(blocks0, itab0[i], n);
      assert p in Owned(blocks0, itab0);
      assert p !in Freed(blocks0, itab0[i], n);
      assert InRange(sb, p);
      FreeBits(sb, blocks, p, used);
      assert used - {p} == Owned(blocks0, itab0) - Freed(blocks0, itab0[i], n + 1);
    }
  }

  /** With every slot freed and cleared, the bitmap is again exactly what the inodes own. */
  lemma TruncDone(sb: Super, blocks0: seq<Block>, itab0: seq<Inode>, i: nat, blocks: seq<Block>, itab: seq<Inode>)
    requires Truncating(sb, blocks0, itab0, i, SLOTS, blocks)
    requires |itab| == |itab0| && itab == itab0[i := itab[i]] && forall s :: 0 <= s <= NDIRECT ==> itab[i].addrs[s] == 0
    ensures FsOk(sb, blocks, itab)
    ensures Owned(blocks, itab) == Owned(blocks0, itab0) - OwnedBy(blocks0, itab0[i])
    ensures forall j, t :: 0 <= j < |itab| && 0 <= t < SLOTS ==>
              Ptr(blocks, itab[j], t) == if j == i then 0 else Ptr(blocks0, itab0[j], t)
  {
    hide BitmapIs, Blocks.GetWord;
    forall j, t | 0 <= j < |itab| && 0 <= t < SLOTS
      ensures Ptr(blocks, itab[j], t) == if j == i then 0 else Ptr(blocks0, itab0[j], t)
    {
      assert itab0[j].addrs[NDIRECT] == Ptr(blocks0, itab0[j], NDIRECT);
    }
    FreedIsOwned(blocks0, itab0[i]);
    TruncOwned(sb, blocks0, itab0, i, blocks, itab);
  }

  lemma FreedIsOwned(blocks: seq<Block>, ip: Inode)
    ensures Freed(blocks, ip, SLOTS) == OwnedBy(blocks, ip)
  {
    forall s | 0 <= s < SLOTS && Ptr(blocks, ip, s) != 0
      ensures Ptr(blocks, ip, s) in Freed(blocks, ip, SLOTS)
    {
      var k := if s < NDIRECT then s else if s == NDIRECT then MAXFILE else s - 1;
      assert TruncSlot(k) == s;
    }
  }

  lemma TruncOwned(sb: Super, blocks0: seq<Block>, itab0: seq<Inode>, i: nat, blocks: seq<Block>, itab: seq<Inode>)
    requires Disjoint(sb, blocks0, itab0) && i < |itab0| && |itab| == |itab0|
    requires forall j, t :: 0 <= j < |itab| && 0 <= t < SLOTS ==>
               Ptr(blocks, itab[j], t) == if j == i then 0 else Ptr(blocks0, itab0[j], t)
    ensures Disjoint(sb, blocks, itab)
    ensures Owned(blocks, itab) == Owned(blocks0, itab0) - OwnedBy(blocks0, itab0[i])
  {
    hide Ptr;
    forall x | x in Owned(blocks0, itab0) - OwnedBy(blocks0, itab0[i])
      ensures x in Owned(blocks, itab)
    {
      var j, t :| 0 <= j < |itab0| && 0 <= t < SLOTS && Ptr(blocks0, itab0[j], t) != 0
        && Ptr(blocks0, itab0[j], t) == x;
      assert j != i;
      assert Ptr(blocks, itab[j], t) == x;
    }
    forall x | x in Owned(blocks, itab)
      ensures x in Owned(blocks0, itab0) - OwnedBy(blocks0, itab0[i])
    {
      var j, t :| 0 <= j < |itab| && 0 <= t < SLOTS && Ptr(blocks, itab[j], t) != 0 && Ptr(blocks, itab[j], t) == x;
      assert Ptr(blocks0, itab0[j], t) == x;
    }
  }

  // ---- file contents ----

  const MAXSIZE: nat := MAXFILE * BSIZE

  /** Block bn of the file exists exactly when it starts below e; so does the indirect block. */
  ghost predicate Extent(blocks: seq<Block>, ip: Inode, e: nat) {
    && e <= MAXSIZE
    && (forall bn: nat :: bn < MAXFILE ==> (Ptr(blocks, ip, Slot(bn)) != 0 <==> bn * BSIZE < e))
    && (ip.addrs[NDIRECT] != 0 <==> NDIRECT * BSIZE < e)
  }

  /** Byte k of a file, through the block map. */
  function ByteAt(blocks: seq<Block>, ip: Inode, k: nat): byte
    requires k < MAXSIZE
  {
    var p := Ptr(blocks, ip, Slot(k / BSIZE));
    if p < |blocks| then blocks[p][k % BSIZE] else 0
  }

  /** The contents of a file without holes. */
  ghost function Contents(blocks: seq<Block>, ip: Inode): (s: seq<byte>)
    requires ip.size <= MAXSIZE
    ensures |s| == ip.size
  {
    seq<byte>(ip.size, k requires 0 <= k < ip.size => ByteAt(blocks, ip, k))
  }

  /** Nothing about the file of inode j has changed: pointers and data. */
  ghost predicate SameFile(blocks: seq<Block>, blocks': seq<Block>, ip: Inode) {
    |blocks'| == |blocks| &&
    forall t :: 0 <= t < SLOTS ==>
      var p := Ptr(blocks, ip, t);
      Ptr(blocks', ip, t) == p && (p != 0 && p < |blocks| ==> blocks'[p] == blocks[p])
  }

  lemma SameContents(blocks: seq<Block>, blocks': seq<Block>, ip: Inode)
    requires SameFile(blocks, blocks', ip) && ip.size <= MAXSIZE && Extent(blocks, ip, ip.size)
    ensures Contents(blocks', ip) == Contents(blocks, ip) && Extent(blocks', ip, ip.size)
  {
    hide Blocks.GetWord, Ptr;
    forall k: nat | k < ip.size
      ensures ByteAt(blocks', ip, k) == ByteAt(blocks, ip, k)
    {
      BlockBelow(k, ip.size);
      assert Ptr(blocks, ip, Slot(k / BSIZE)) != 0;
    }
    forall bn: nat | bn < MAXFILE
      ensures Ptr(blocks', ip, Slot(bn)) != 0 <==> bn * BSIZE < ip.size
    {
      assert Ptr(blocks', ip, Slot(bn)) == Ptr(blocks, ip, Slot(bn));
    }
  }

  lemma BlockBelow(k: nat, e: nat)
    requires k < e <= MAXSIZE
    ensures k / BSIZE < MAXFILE && (k / BSIZE) * BSIZE <= k < (k / BSIZE + 1) * BSIZE
    ensures (k / BSIZE) * BSIZE < e && k == (k / BSIZE) * BSIZE + k % BSIZE
  {
  }

  function Patch(b: Block, o: nat, chunk: seq<byte>): (r: Block)
    requires o + |chunk| <= BSIZE
  {
    b[..o] + chunk + b[o + |chunk|..]
  }

  /** Writing into a block of a file moves no pointer and leaves the bitmap alone. */
  lemma PatchOk(sb: Super, blocks: seq<Block>, itab: seq<Inode>, i: nat, bn: nat, b: Block)
    requires FsOk(sb, blocks, itab) && i < |itab| && bn < MAXFILE
    requires InRange(sb, Ptr(blocks, itab[i], Slot(bn)))
    ensures var blocks' := blocks[Ptr(blocks, itab[i], Slot(bn)) := b];
            FsOk(sb, blocks', itab) && SamePtrs(blocks, blocks', itab) && Owned(blocks', itab) == Owned(blocks, itab)
  {
    hide Blocks.GetWord, BlockBit;
    var p := Ptr(blocks, itab[i], Slot(bn));
    var blocks' := blocks[p := b];
    forall j | 0 <= j < |itab|
      ensures itab[j].addrs[NDIRECT] == 0 || itab[j].addrs[NDIRECT] != p
    {
      assert itab[j].addrs[NDIRECT] == Ptr(blocks, itab[j], NDIRECT);
      assert Slot(bn) != NDIRECT;
    }
    PtrsUnmoved(sb, blocks, blocks', itab);
    SamePtrsOwned(sb, blocks, blocks', itab);
    forall c: nat | c < sb.size
      ensures Used(sb, blocks', c) == Used(sb, blocks, c)
    {
      BBlockIsMeta(sb, c);
    }
  }

  /** The file after bmap of the block at `off` and a chunk written there. */
  ghost predicate Turn(sb: Super, blocks0: seq<Block>, itab0: seq<Inode>, blocks1: seq<Block>, itab1: seq<Inode>,
                       i: nat, off: nat, m: nat, p: nat, e: nat)
  {
    && FsOk(sb, blocks0, itab0) && i < |itab0|
    && 0 < m && off % BSIZE + m <= BSIZE && off + m <= MAXSIZE && off <= e
    && Extent(blocks0, itab0[i], e)
    && Mapped(sb, blocks0, itab0, blocks1, itab1, i, off / BSIZE, p)
  }

  lemma TurnExtent(sb: Super, blocks0: seq<Block>, itab0: seq<Inode>, blocks1: seq<Block>, itab1: seq<Inode>,
                   i: nat, off: nat, m: nat, p: nat, e: nat)
    requires Turn(sb, blocks0, itab0, blocks1, itab1, i, off, m, p, e)
    ensures Extent(blocks1, itab1[i], Max(e, off + m))
  {
    hide Ptr, Disjoint, BitmapIs, Owned;
    var n := off / BSIZE;
    BlockBelow(off, off + m);
    assert off + m <= (n + 1) * BSIZE;
    forall bn: nat | bn < MAXFILE
      ensures Ptr(blocks1, itab1[i], Slot(bn)) != 0 <==> bn * BSIZE < Max(e, off + m)
    {
      assert Ptr(blocks0, itab0[i], Slot(bn)) != 0 <==> bn * BSIZE < e;
      if bn != n {
        assert Slot(bn) != Slot(n) && Slot(bn) != NDIRECT;
        assert Ptr(blocks1, itab1[i], Slot(bn)) == Ptr(blocks0, itab0[i], Slot(bn));
        assert bn < n ==> bn * BSIZE < n * BSIZE;
        assert bn > n ==> bn * BSIZE >= (n + 1) * BSIZE;
      }
    }
  }

  lemma TurnByte(sb: Super, blocks0: seq<Block>, itab0: seq<Inode>, blocks1: seq<Block>, itab1: seq<Inode>,
                 i: nat, off: nat, chunk: seq<byte>, p: nat, e: nat, k: nat)
    requires Turn(sb, blocks0, itab0, blocks1, itab1, i, off, |chunk|, p, e) && k < Max(e, off + |chunk|)
    requires SamePtrs(blocks1, blocks1[p := Patch(blocks1[p], off % BSIZE, chunk)], itab1)
    ensures ByteAt(blocks1[p := Patch(blocks1[p], off % BSIZE, chunk)], itab1[i], k)
         == if off <= k < off + |chunk| then chunk[k - off] else ByteAt(blocks0, itab0[i], k)
  {
    hide Ptr, Disjoint, BitmapIs, Owned, Patch;
    var blocks2 := blocks1[p := Patch(blocks1[p], off % BSIZE, chunk)];
    BlockBelow(off, off + |chunk|);
    BlockBelow(k, Max(e, off + |chunk|));
    assert Ptr(blocks2, itab1[i], Slot(k / BSIZE)) == Ptr(blocks1, itab1[i], Slot(k / BSIZE));
    if k / BSIZE != off / BSIZE {
      OtherBlock(off, |chunk|, k);
      TurnOtherBlock(sb, blocks0, itab0, blocks1, itab1, i, off, |chunk|, p, e, k / BSIZE);
    } else {
      assert Ptr(blocks0, itab0[i], Slot(k / BSIZE)) != 0 <==> (k / BSIZE) * BSIZE < e;
      PatchByte(blocks1[p], off % BSIZE, chunk, k % BSIZE);
    }
  }

  lemma PatchByte(b: Block, o: nat, chunk: seq<byte>, j: nat)
    requires o + |chunk| <= BSIZE && j < BSIZE
    ensures Patch(b, o, chunk)[j] == if o <= j < o + |chunk| then chunk[j - o] else b[j]
  {
  }

  lemma TurnOtherBlock(sb: Super, blocks0: seq<Block>, itab0: seq<Inode>, blocks1: seq<Block>, itab1: seq<Inode>,
                       i: nat, off: nat, m: nat, p: nat, e: nat, q: nat)
    requires Turn(sb, blocks0, itab0, blocks1, itab1, i, off, m, p, e)
    requires q < MAXFILE && q != off / BSIZE && q * BSIZE < Max(e, off + m)
    ensures var y := Ptr(blocks0, itab0[i], Slot(q));
            Ptr(blocks1, itab1[i], Slot(q)) == y && y != p && y < |blocks0| && blocks1[y] == blocks0[y]
  {
    hide Ptr, Disjoint, BitmapIs;
    var n := off / BSIZE;
    BlockBelow(off, off + m);
    var y := Ptr(blocks0, itab0[i], Slot(q));
    assert q > n ==> q * BSIZE >= (n + 1) * BSIZE;
    assert y != 0 <==> q * BSIZE < e;
    assert Slot(q) != Slot(n) && Slot(q) != NDIRECT;
    assert Ptr(blocks1, itab1[i], Slot(q)) == y;
    assert y in Owned(blocks0, itab0);
    PtrsDistinct(sb, blocks1, itab1, i, Slot(q), NDIRECT);
    PtrsDistinct(sb, blocks1, itab1, i, Slot(q), Slot(n));
    IsDirectPtr(blocks1, itab1[i], NDIRECT);
  }

  lemma OtherBlock(off: nat, m: nat, k: nat)
    requires k / BSIZE != off / BSIZE && off % BSIZE + m <= BSIZE
    ensures !(off <= k < off + m)
  {
  }

  lemma IsDirectPtr(blocks: seq<Block>, ip: Inode, s: nat)
    requires s <= NDIRECT
    ensures Ptr(blocks, ip, s) == ip.addrs[s]
  {
  }

  lemma PtrsDistinct(sb: Super, blocks: seq<Block>, itab: seq<Inode>, i: nat, s: nat, t: nat)
    requires FsOk(sb, blocks, itab) && i < |itab| && s < SLOTS && t < SLOTS && s != t
    requires Ptr(blocks, itab[i], s) != 0
    ensures Ptr(blocks, itab[i], s) != Ptr(blocks, itab[i], t)
  {
  }

  lemma TurnOthers(sb: Super, blocks0: seq<Block>, itab0: seq<Inode>, blocks1: seq<Block>, itab1: seq<Inode>,
                   i: nat, off: nat, chunk: seq<byte>, p: nat, e: nat, j: nat)
    requires Turn(sb, blocks0, itab0, blocks1, itab1, i, off, |chunk|, p, e) && j < |itab0| && j != i
    requires SamePtrs(blocks1, blocks1[p := Patch(blocks1[p], off % BSIZE, chunk)], itab1)
    ensures SameFile(blocks0, blocks1[p := Patch(blocks1[p], off % BSIZE, chunk)], itab0[j])
  {
    hide Ptr, BitmapIs, Patch;
    var blocks2 := blocks1[p := Patch(blocks1[p], off % BSIZE, chunk)];
    forall t | 0 <= t < SLOTS
      ensures var y := Ptr(blocks0, itab0[j], t);
              Ptr(blocks2, itab0[j], t) == y && (y != 0 && y < |blocks0| ==> blocks2[y] == blocks0[y])
    {
      var y := Ptr(blocks0, itab0[j], t);
      assert Ptr(blocks1, itab1[j], t) == y && Ptr(blocks2, itab1[j], t) == Ptr(blocks1, itab1[j], t);
      assert y != 0 ==> y in Owned(blocks0, itab0);
      IsDirectPtr(blocks1, itab1[i], NDIRECT);
      assert Ptr(blocks1, itab1[i], Slot(off / BSIZE)) == p;
    }
  }

  /** The state of a write of `src` at `off` after its first `tot` bytes, relative to the state
      before it. */
  ghost predicate Writing(sb: Super, blocks0: seq<Block>, itab0: seq<Inode>, blocks: seq<Block>, itab: seq<Inode>,
                          i: nat, off: nat, src: seq<byte>, tot: nat)
  {
    && FsOk(sb, blocks0, itab0) && FsOk(sb, blocks, itab)
    && i < |itab0| == |itab| && tot <= |src| && off <= itab0[i].size <= MAXSIZE && off + |src| <= MAXSIZE
    && itab == itab0[i := itab[i]] && itab[i].size == itab0[i].size
    && Extent(blocks, itab[i], Max(itab0[i].size, off + tot))
    && (forall k: nat :: k < Max(itab0[i].size, off + tot) ==>
          ByteAt(blocks, itab[i], k) == if off <= k < off + tot then src[k - off] else ByteAt(blocks0, itab0[i], k))
    && (forall j :: 0 <= j < |itab0| && j != i ==> SameFile(blocks0, blocks, itab0[j]))
    && (off + tot <= itab0[i].size ==> itab == itab0)
  }

  lemma SameFileTrans(blocks0: seq<Block>, blocks1: seq<Block>, blocks2: seq<Block>, ip: Inode)
    requires SameFile(blocks0, blocks1, ip) && SameFile(blocks1, blocks2, ip)
    ensures SameFile(blocks0, blocks2, ip)
  {
    hide Ptr;
    forall t | 0 <= t < SLOTS
      ensures var p := Ptr(blocks0, ip, t);
              Ptr(blocks2, ip, t) == p && (p != 0 && p < |blocks0| ==> blocks2[p] == blocks0[p])
    {
      assert Ptr(blocks1, ip, t) == Ptr(blocks0, ip, t);
    }
  }

  lemma ExtentSamePtrs(blocks: seq<Block>, blocks': seq<Block>, itab: seq<Inode>, i: nat, e: nat)
    requires i < |itab| && SamePtrs(blocks, blocks', itab) && Extent(blocks, itab[i], e)
    ensures Extent(blocks', itab[i], e)
  {
    hide Ptr;
  }

  /** bmap of the block at off + tot and a copy of m bytes into it extend the write by m bytes. */
  lemma WritingStep(sb: Super, blocks0: seq<Block>, itab0: seq<Inode>, blocks: seq<Block>, itab: seq<Inode>,
                    i: nat, off: nat, src: seq<byte>, tot: nat, m: nat, blocks1: seq<Block>, itab1: seq<Inode>, p: nat)
    requires Writing(sb, blocks0, itab0, blocks, itab, i, off, src, tot)
    requires 0 < m && tot + m <= |src| && (off + tot) % BSIZE + m <= BSIZE
    requires Mapped(sb, blocks, itab, blocks1, itab1, i, (off + tot) / BSIZE, p)
    ensures p < |blocks1|
    ensures Writing(sb, blocks0, itab0, blocks1[p := Patch(blocks1[p], (off + tot) % BSIZE, src[tot..tot + m])], itab1,
                    i, off, src, tot + m)
  {
    hide FsOk, Mapped, Extent, ByteAt, SameFile, Patch;
    var size, at, chunk := itab0[i].size, off + tot, src[tot..tot + m];
    var e := Max(size, at);
    MappedFacts(sb, blocks, itab, blocks1, itab1, i, at / BSIZE, p);
    var blocks2 := blocks1[p := Patch(blocks1[p], at % BSIZE, chunk)];
    assert Turn(sb, blocks, itab, blocks1, itab1, i, at, m, p, e);
    PatchOk(sb, blocks1, itab1, i, at / BSIZE, Patch(blocks1[p], at % BSIZE, chunk));
    TurnExtent(sb, blocks, itab, blocks1, itab1, i, at, m, p, e);
    ExtentSamePtrs(blocks1, blocks2, itab1, i, Max(e, at + m));
    assert Max(e, at + m) == Max(size, at + m);
    forall k: nat | k < Max(size, at + m)
      ensures ByteAt(blocks2, itab1[i], k) == if off <= k < at + m then src[k - off] else ByteAt(blocks0, itab0[i], k)
    {
      TurnByte(sb, blocks, itab, blocks1, itab1, i, at, chunk, p, e, k);
    }
    forall j | 0 <= j < |itab0| && j != i
      ensures SameFile(blocks0, blocks2, itab0[j])
    {
      TurnOthers(sb, blocks, itab, blocks1, itab1, i, at, chunk, p, e, j);
      SameFileTrans(blocks0, blocks, blocks2, itab0[j]);
    }
    if at + m <= size {
      AlreadyMapped(sb, blocks, itab, blocks1, itab1, i, at, p, e);
    }
  }

  lemma MappedFacts(sb: Super, blocks: seq<Block>, itab: seq<Inode>, blocks': seq<Block>, itab': seq<Inode>,
                    i: nat, bn: nat, p: nat)
    requires i < |itab| && bn < MAXFILE && Mapped(sb, blocks, itab, blocks', itab', i, bn, p)
    ensures FsOk(sb, blocks', itab') && |blocks'| == |blocks| == sb.size && |itab'| == |itab|
    ensures itab' == itab[i := itab'[i]] && itab'[i].size == itab[i].size
    ensures Ptr(blocks', itab'[i], Slot(bn)) == p && InRange(sb, p) && p < |blocks'|
  {
  }

  /** Where the pointer to block bn of the file is. */
  lemma MappedPlace(sb: Super, blocks: seq<Block>, itab: seq<Inode>, blocks': seq<Block>, itab': seq<Inode>,
                    i: nat, bn: nat, p: nat)
    requires i < |itab| && bn < MAXFILE && Mapped(sb, blocks, itab, blocks', itab', i, bn, p)
    ensures i < |itab'| && if bn < 12 then itab'[i].addrs[bn] == p
                           else 0 < itab'[i].addrs[12] < |blocks'| && GetWord(blocks'[itab'[i].addrs[12]], bn - 12) == p
  {
    hide BitmapIs, Owned, Blocks.GetWord;
    IndirectInRange(sb, blocks', itab', i);
  }

  lemma AlreadyMapped(sb: Super, blocks: seq<Block>, itab: seq<Inode>, blocks': seq<Block>, itab': seq<Inode>,
                      i: nat, off: nat, p: nat, e: nat)
    requires i < |itab| && off < e <= MAXSIZE && Extent(blocks, itab[i], e)
    requires Mapped(sb, blocks, itab, blocks', itab', i, off / BSIZE, p)
    ensures blocks' == blocks && itab' == itab && p == Ptr(blocks, itab[i], Slot(off / BSIZE)) && p < |blocks|
  {
    hide Ptr;
    BlockBelow(off, e);
    assert Ptr(blocks, itab[i], Slot(off / BSIZE)) != 0;
  }

  // ---- which blocks a write allocates and logs ----

  predicate Aligned(off: nat) {
    off % BSIZE == 0
  }

  /** The blocks the bitmap shows as free. */
  ghost function FreeBlocks(sb: Super, blocks: seq<Block>): set<nat>
    requires sb.Ok() && |blocks| == sb.size
  {
    set b: nat | b < sb.size && !Used(sb, blocks, b)
  }

  lemma FreeIsUnowned(sb: Super, blocks: seq<Block>, itab: seq<Inode>, b: nat)
    requires FsOk(sb, blocks, itab)
    ensures b in FreeBlocks(sb, blocks) <==> InRange(sb, b) && b !in Owned(blocks, itab)
  {
    hide Used, Disjoint;
  }

  /** Allocating `got` takes exactly those blocks from the free ones. */
  lemma FreeShrinks(sb: Super, blocks: seq<Block>, itab: seq<Inode>, blocks': seq<Block>, itab': seq<Inode>,
                    got: set<nat>)
    requires FsOk(sb, blocks, itab) && FsOk(sb, blocks', itab') && Owned(blocks', itab') == Owned(blocks, itab) + got
    ensures FreeBlocks(sb, blocks') == FreeBlocks(sb, blocks) - got
  {
    forall b: nat
      ensures b in FreeBlocks(sb, blocks') <==> b in FreeBlocks(sb, blocks) - got
    {
      FreeIsUnowned(sb, blocks, itab, b);
      FreeIsUnowned(sb, blocks', itab', b);
    }
  }

  /** `a` are the lowest-numbered elements of `free`. */
  ghost predicate Lowest(free: set<nat>, a: set<nat>) {
    a <= free && forall x, y :: x in a && y in free && y < x ==> y in a
  }

  lemma LowestChain(free: set<nat>, a: set<nat>, b: set<nat>)
    requires Lowest(free, a) && Lowest(free - a, b)
    ensures Lowest(free, a + b) && |a + b| == |a| + |b|
  {
    assert a * b == {};
    forall x, y | x in a + b && y in free && y < x
      ensures y in a + b
    {
      assert y !in a ==> y in free - a;
    }
  }

  /** The number of blocks of a file of e bytes. */
  function BlockCount(e: nat): (c: nat) {
    (e + BSIZE - 1) / BSIZE
  }

  /** How many blocks a file without holes needs to grow from `size` to e bytes, the indirect block included. */
  function Needs(size: nat, e: nat): (k: nat) {
    if e <= size then 0
    else
      BlocksGrow(size, e);
      BlockCount(e) - BlockCount(size) + if BlockCount(size) <= NDIRECT < BlockCount(e) then 1 else 0
  }

  lemma BlocksGrow(a: nat, b: nat)
    requires a <= b
    ensures BlockCount(a) <= BlockCount(b)
  {
  }

  lemma CountIs(e: nat, c: nat)
    requires c * BSIZE < e <= (c + 1) * BSIZE
    ensures BlockCount(e) == c + 1
  {
  }

  lemma CountAligned(c: nat)
    ensures BlockCount(c * BSIZE) == c
  {
  }

  lemma CountBelow(e: nat, bn: nat)
    ensures bn * BSIZE < e <==> bn < BlockCount(e)
  {
  }

  lemma NeedsGrows(size: nat, a: nat, b: nat)
    requires a <= b
    ensures Needs(size, a) <= Needs(size, b)
  {
    BlocksGrow(a, b);
    if size <= a {
      BlocksGrow(size, a);
    }
  }

  /** The existing blocks among file blocks lo..hi. */
  ghost function Existing(blocks: seq<Block>, ip: Inode, lo: nat, hi: nat): set<nat>
    requires hi <= MAXFILE
    decreases hi
  {
    if hi <= lo then {}
    else
      var p := Ptr(blocks, ip, Slot(hi - 1));
      Existing(blocks, ip, lo, hi - 1) + if p == 0 then {} else {p}
  }

  /** What allocating `got` logs: the blocks, which are zeroed, and their bitmap blocks. */
  ghost function AllocLog(sb: Super, got: set<nat>): set<nat> {
    got + BitmapBlocks(sb, got)
  }

  ghost function BitmapBlocks(sb: Super, got: set<nat>): set<nat> {
    set b | b in got :: sb.BBlock(b)
  }

  /** One past the last file block that the first n bytes at `off` touch. */
  function LastTouched(off: nat, n: nat): nat {
    if n == 0 then off / BSIZE else BlockCount(off + n)
  }

  /** Whether a write up to byte e stores a new entry in the indirect block. */
  predicate AddsEntry(size: nat, e: nat) {
    size < e && BlockCount(size) < BlockCount(e) && NDIRECT < BlockCount(e)
  }

  /** The blocks logged by the loop for n bytes at `off` of the file `ip`, when it allocates `got`: the file's
      existing blocks in the range, what allocation logs, and the indirect block if it gets an entry. */
  ghost function LoopLog(sb: Super, blocks: seq<Block>, ip: Inode, off: nat, n: nat, got: set<nat>): set<nat>
    requires LastTouched(off, n) <= MAXFILE
  {
    var ind := ip.addrs[NDIRECT];
    Existing(blocks, ip, off / BSIZE, LastTouched(off, n)) + AllocLog(sb, got)
    + if n > 0 && AddsEntry(ip.size, off + n) && ind != 0 then {ind} else {}
  }

  /** Exactly the blocks that writei logs: those of its loop, and the inode block if the file grows. */
  ghost function WriteLog(sb: Super, blocks: seq<Block>, ip: Inode, i: nat, off: nat, n: nat, got: set<nat>): set<nat>
    requires LastTouched(off, n) <= MAXFILE
  {
    LoopLog(sb, blocks, ip, off, n, got) + if n > 0 && off + n > ip.size then {sb.IBlock(i)} else {}
  }

  lemma LastInFile(off: nat, n: nat)
    requires off + n <= MAXSIZE
    ensures LastTouched(off, n) <= MAXFILE
  {
  }

  // -- bmap --

  /** How many blocks bmap allocates for file block bn. */
  function BmapNeeds(blocks: seq<Block>, ip: Inode, bn: nat): nat
    requires bn < MAXFILE
  {
    if Ptr(blocks, ip, Slot(bn)) != 0 then 0 else if bn >= NDIRECT && ip.addrs[NDIRECT] == 0 then 2 else 1
  }

  /** From one state to another the k lowest free blocks, `got`, have been allocated. */
  ghost predicate Took(sb: Super, blocks: seq<Block>, itab: seq<Inode>, blocks': seq<Block>, itab': seq<Inode>,
                       got: set<nat>, k: nat) {
    && sb.Ok() && |blocks| == sb.size
    && Lowest(FreeBlocks(sb, blocks), got) && |got| == k && Owned(blocks', itab') == Owned(blocks, itab) + got
  }

  lemma TookTwice(sb: Super, blocks0: seq<Block>, itab0: seq<Inode>, blocks1: seq<Block>, itab1: seq<Inode>,
                  blocks2: seq<Block>, itab2: seq<Inode>, a: set<nat>, b: set<nat>, k: nat, m: nat)
    requires FsOk(sb, blocks0, itab0) && FsOk(sb, blocks1, itab1)
    requires Took(sb, blocks0, itab0, blocks1, itab1, a, k) && Took(sb, blocks1, itab1, blocks2, itab2, b, m)
    ensures Took(sb, blocks0, itab0, blocks2, itab2, a + b, k + m)
  {
    hide FsOk, FreeBlocks, Owned, Lowest;
    FreeShrinks(sb, blocks0, itab0, blocks1, itab1, a);
    LowestChain(FreeBlocks(sb, blocks0), a, b);
    Union3(Owned(blocks0, itab0), a, b);
  }

  lemma Union3(x: set<nat>, a: set<nat>, b: set<nat>)
    ensures x + a + b == x + (a + b)
  {
  }

  lemma TookLeaves(sb: Super, blocks: seq<Block>, itab: seq<Inode>, blocks': seq<Block>, itab': seq<Inode>,
                   got: set<nat>, k: nat)
    requires FsOk(sb, blocks, itab) && FsOk(sb, blocks', itab') && Took(sb, blocks, itab, blocks', itab', got, k)
    ensures |FreeBlocks(sb, blocks')| == |FreeBlocks(sb, blocks)| - k
  {
    hide FsOk, FreeBlocks, Owned;
    FreeShrinks(sb, blocks, itab, blocks', itab', got);
    DifferenceSize(FreeBlocks(sb, blocks), got);
  }

  lemma DifferenceSize(a: set<nat>, b: set<nat>)
    requires b <= a
    ensures |a - b| == |a| - |b|
  {
    assert a == (a - b) + b;
  }

  /** An indirect block stays, and a new one is among the blocks allocated. */
  ghost predicate IndKept(ip: Inode, ip': Inode, got: set<nat>) {
    var ind, ind' := ip.addrs[NDIRECT], ip'.addrs[NDIRECT];
    (ind != 0 ==> ind' == ind) && (ind == 0 && ind' != 0 ==> ind' in got)
  }

  lemma IndKeptTwice(ip0: Inode, ip1: Inode, ip2: Inode, a: set<nat>, b: set<nat>)
    requires IndKept(ip0, ip1, a) && IndKept(ip1, ip2, b)
    ensures IndKept(ip0, ip2, a + b)
  {
  }

  /** What bmap logs when it allocates `got`: what allocation logs, and the indirect block if it stores an entry. */
  ghost function BmapLog(sb: Super, ind: nat, bn: nat, got: set<nat>): set<nat> {
    AllocLog(sb, got) + if got != {} && bn >= NDIRECT then {ind} else {}
  }

  /** bmap allocated `got`, the lowest free blocks, and logged exactly what that logs. */
  ghost predicate Claims(sb: Super, blocks: seq<Block>, itab: seq<Inode>, logged: set<nat>,
                         blocks': seq<Block>, itab': seq<Inode>, logged': set<nat>, i: nat, bn: nat, got: set<nat>)
    requires i < |itab| && i < |itab'| && bn < MAXFILE
  {
    && Took(sb, blocks, itab, blocks', itab', got, BmapNeeds(blocks, itab[i], bn))
    && IndKept(itab[i], itab'[i], got)
    && logged' == logged + BmapLog(sb, itab'[i].addrs[NDIRECT], bn, got)
  }

  // -- the write loop --

  /** What a write has allocated and logged after `tot` bytes. */
  ghost predicate Allocating(sb: Super, blocks0: seq<Block>, itab0: seq<Inode>, logged0: set<nat>,
                             blocks: seq<Block>, itab: seq<Inode>, logged: set<nat>,
                             i: nat, off: nat, tot: nat, got: set<nat>)
  {
    && FsOk(sb, blocks0, itab0) && FsOk(sb, blocks, itab) && i < |itab0| == |itab|
    && off <= itab0[i].size && off + tot <= MAXSIZE && LastTouched(off, tot) <= MAXFILE
    && Extent(blocks0, itab0[i], itab0[i].size)
    && Extent(blocks, itab[i], Max(itab0[i].size, off + tot))
    && Took(sb, blocks0, itab0, blocks, itab, got, Needs(itab0[i].size, off + tot))
    && IndKept(itab0[i], itab[i], got)
    && KeptPtrs(blocks0, itab0[i], blocks, itab[i], itab0[i].size)
    && logged == logged0 + LoopLog(sb, blocks0, itab0[i], off, tot, got)
  }

  /** The blocks below byte e of the file are where they were. */
  ghost predicate KeptPtrs(blocks0: seq<Block>, ip0: Inode, blocks: seq<Block>, ip: Inode, e: nat) {
    forall bn: nat :: bn < MAXFILE && bn * BSIZE < e ==> Ptr(blocks, ip, Slot(bn)) == Ptr(blocks0, ip0, Slot(bn))
  }

  /** The turn at byte off + tot: which block it is, and how the counts move. */
  lemma TurnCounts(size: nat, off: nat, tot: nat, m: nat)
    requires off <= size && 0 < m && (off + tot) % BSIZE + m <= BSIZE && (tot > 0 ==> Aligned(off + tot))
    ensures var at := off + tot; var bn := at / BSIZE;
            && LastTouched(off, tot) == bn && LastTouched(off, tot + m) == bn + 1 == BlockCount(at + m)
            && (bn * BSIZE < Max(size, at) ==>
                  bn * BSIZE < size && Needs(size, at + m) == Needs(size, at) == 0 && !AddsEntry(size, at + m)
                    && !AddsEntry(size, at))
            && (bn * BSIZE >= Max(size, at) ==>
                  && at == bn * BSIZE && BlockCount(size) <= bn && at >= size && BlockCount(at) == bn
                  && Needs(size, at + m) == Needs(size, at) + (if bn == NDIRECT then 2 else 1)
                  && (AddsEntry(size, at + m) <==> bn >= NDIRECT))
  {
    var at := off + tot;
    var bn := at / BSIZE;
    assert bn * BSIZE <= at < at + m <= (bn + 1) * BSIZE;
    CountIs(at + m, bn);
    if tot > 0 {
      assert at == bn * BSIZE;
      CountAligned(bn);
    }
    CountBelow(size, bn);
    if bn * BSIZE < Max(size, at) {
      BlocksGrow(at, at + m);
    } else {
      CountAligned(bn);
      BlocksGrow(size, at);
    }
  }

  /** The log after a turn in an existing block. */
  lemma ExistingTurn(sb: Super, blocks0: seq<Block>, ip0: Inode, off: nat, tot: nat, m: nat, got: set<nat>, p: nat)
    requires off <= ip0.size && 0 < m && (off + tot) % BSIZE + m <= BSIZE && (tot > 0 ==> Aligned(off + tot))
    requires off + tot + m <= MAXSIZE && LastTouched(off, tot) <= MAXFILE && LastTouched(off, tot + m) <= MAXFILE
    requires (off + tot) / BSIZE * BSIZE < ip0.size && p == Ptr(blocks0, ip0, Slot((off + tot) / BSIZE)) != 0
    ensures LoopLog(sb, blocks0, ip0, off, tot + m, got) == LoopLog(sb, blocks0, ip0, off, tot, got) + {p}
  {
    hide AllocLog, Ptr, AddsEntry, Aligned, BlockCount;
    TurnCounts(ip0.size, off, tot, m);
    hide LastTouched;
  }

  /** The log after a turn that allocates. */
  lemma NewTurn(sb: Super, blocks0: seq<Block>, ip0: Inode, off: nat, tot: nat, m: nat,
                got: set<nat>, more: set<nat>, p: nat, ind: nat)
    requires off <= ip0.size && 0 < m && (off + tot) % BSIZE + m <= BSIZE && (tot > 0 ==> Aligned(off + tot))
    requires off + tot + m <= MAXSIZE && LastTouched(off, tot) <= MAXFILE && LastTouched(off, tot + m) <= MAXFILE
    requires (off + tot) / BSIZE * BSIZE >= Max(ip0.size, off + tot)
             && Ptr(blocks0, ip0, Slot((off + tot) / BSIZE)) == 0
    requires p in more && (ip0.addrs[NDIRECT] != 0 ==> ind == ip0.addrs[NDIRECT])
    requires ip0.addrs[NDIRECT] == 0 && (off + tot) / BSIZE >= NDIRECT ==> ind in got + more
    requires ip0.addrs[NDIRECT] != 0 ==> ind != 0
    ensures LoopLog(sb, blocks0, ip0, off, tot + m, got + more)
         == LoopLog(sb, blocks0, ip0, off, tot, got) + AllocLog(sb, more)
            + (if (off + tot) / BSIZE >= NDIRECT then {ind} else {}) + {p}
  {
    hide Ptr, Aligned, BlockCount;
    TurnCounts(ip0.size, off, tot, m);
    AllocLogs(sb, got, more);
    EntryStays(ip0.size, off, tot, m);
    hide LastTouched, AddsEntry;
  }

  lemma EntryStays(size: nat, off: nat, tot: nat, m: nat)
    ensures AddsEntry(size, off + tot) ==> AddsEntry(size, off + tot + m)
  {
    BlocksGrow(off + tot, off + tot + m);
  }

  lemma AllocLogs(sb: Super, a: set<nat>, b: set<nat>)
    ensures AllocLog(sb, a + b) == AllocLog(sb, a) + AllocLog(sb, b) && b <= AllocLog(sb, b)
            && a + b <= AllocLog(sb, a + b)
  {
    assert forall x :: x in BitmapBlocks(sb, a) ==> x in BitmapBlocks(sb, a + b);
    assert forall x :: x in BitmapBlocks(sb, b) ==> x in BitmapBlocks(sb, a + b);
  }

  /** The bytes of a file after `src` is written at `off`. */
  function Overwrite(s: seq<byte>, off: nat, src: seq<byte>): (r: seq<byte>)
    requires off <= |s|
  {
    s[..off] + src + if off + |src| < |s| then s[off + |src|..] else []
  }

  /** The bytes of `src` replace those from `off` on, and the file is longer only if they go past its end. */
  lemma OverwriteReads(s: seq<byte>, off: nat, src: seq<byte>)
    requires off <= |s|
    ensures |Overwrite(s, off, src)| == Max(|s|, off + |src|)
    ensures forall k :: 0 <= k < |Overwrite(s, off, src)| ==>
              Overwrite(s, off, src)[k] == if off <= k < off + |src| then src[k - off] else s[k]
  {
  }

  /** Byte k of a file is byte k % 512 of block k / 512, which one of the twelve direct pointers or word k / 512 - 12 of
      the indirect block names. */
  lemma ContentsAt(sb: Super, blocks: seq<Block>, itab: seq<Inode>, i: nat, k: nat)
    requires FsOk(sb, blocks, itab) && i < |itab| && itab[i].size <= MAXSIZE
    requires Extent(blocks, itab[i], itab[i].size) && k < itab[i].size
    ensures var ip, bn := itab[i], k / 512;
            && ip.addrs[12] < |blocks|
            && bn < 12 + 128
            && var p := if bn < 12 then ip.addrs[bn] else GetWord(blocks[ip.addrs[12]], bn - 12);
               p < |blocks| && p != 0 && Contents(blocks, ip)[k] == blocks[p][k % 512]
  {
    hide BitmapIs, Owned, Blocks.GetWord;
    BlockBelow(k, itab[i].size);
    IndirectInRange(sb, blocks, itab, i);
    var bn := k / BSIZE;
    assert Ptr(blocks, itab[i], Slot(bn)) != 0;
    assert InRange(sb, Ptr(blocks, itab[i], Slot(bn)));
    assert bn >= NDIRECT ==> itab[i].addrs[NDIRECT] != 0;
  }

  lemma SubsetSize(a: set<nat>, b: set<nat>)
    requires a <= b
    ensures |a| <= |b|
  {
    assert b == a + (b - a);
  }

  lemma WritingContents(sb: Super, blocks0: seq<Block>, itab0: seq<Inode>, blocks: seq<Block>, itab: seq<Inode>,
                        i: nat, off: nat, src: seq<byte>, ip: Inode)
    requires Writing(sb, blocks0, itab0, blocks, itab, i, off, src, |src|)
    requires ip.addrs == itab[i].addrs && ip.size == Max(itab0[i].size, off + |src|)
    ensures Extent(blocks, ip, ip.size)
    ensures Contents(blocks, ip) == Overwrite(Contents(blocks0, itab0[i]), off, src)
    ensures FsOk(sb, blocks, itab[i := ip])
  {
    hide BitmapIs, Blocks.GetWord;
    forall s | 0 <= s < SLOTS
      ensures Ptr(blocks, ip, s) == Ptr(blocks, itab[i], s)
    {
    }
    SizeIrrelevant(sb, blocks, itab, i, ip);
    hide Ptr, FsOk;
    forall k: nat | k < ip.size
      ensures Contents(blocks, ip)[k] == Overwrite(Contents(blocks0, itab0[i]), off, src)[k]
    {
      assert ByteAt(blocks, ip, k) == ByteAt(blocks, itab[i], k);
    }
  }

  lemma SizeIrrelevant(sb: Super, blocks: seq<Block>, itab: seq<Inode>, i: nat, ip: Inode)
    requires FsOk(sb, blocks, itab) && i < |itab| && ip.addrs == itab[i].addrs
    ensures FsOk(sb, blocks, itab[i := ip]) && Owned(blocks, itab[i := ip]) == Owned(blocks, itab)
  {
    hide BitmapIs;
    var itab' := itab[i := ip];
    assert forall j, s :: 0 <= j < |itab| && 0 <= s < SLOTS ==> Ptr(blocks, itab'[j], s) == Ptr(blocks, itab[j], s);
    hide Ptr;
    assert Owned(blocks, itab') == Owned(blocks, itab) by {
      assert forall x :: x in Owned(blocks, itab) ==> x in Owned(blocks, itab');
    }
  }

  lemma ClaimsNone(sb: Super, blocks: seq<Block>, itab: seq<Inode>, logged: set<nat>, i: nat, bn: nat)
    requires sb.Ok() && |blocks| == sb.size && i < |itab| && bn < MAXFILE && Ptr(blocks, itab[i], Slot(bn)) != 0
    ensures Claims(sb, blocks, itab, logged, blocks, itab, logged, i, bn, {})
  {
    hide Ptr, FreeBlocks, Owned;
  }

  lemma ClaimsOne(sb: Super, blocks: seq<Block>, itab: seq<Inode>, logged: set<nat>,
                  blocks': seq<Block>, itab': seq<Inode>, logged': set<nat>, i: nat, bn: nat, p: nat)
    requires sb.Ok() && |blocks| == sb.size && i < |itab| == |itab'| && bn < NDIRECT && itab[i].addrs[bn] == 0
    requires Lowest(FreeBlocks(sb, blocks), {p}) && Owned(blocks', itab') == Owned(blocks, itab) + {p}
    requires itab' == SetAddr(itab, i, bn, p) && logged' == logged + {sb.BBlock(p), p}
    ensures Claims(sb, blocks, itab, logged, blocks', itab', logged', i, bn, {p})
  {
    OneAllocLog(sb, p);
    hide FreeBlocks, Owned, Lowest, AllocLog;
  }

  lemma SizesFit(sb: Super, blocks: seq<Block>, itab: seq<Inode>)
    requires FsOk(sb, blocks, itab)
    ensures sb.Ok() && |blocks| == sb.size
  {
  }

  lemma ClaimsEntry(sb: Super, blocks: seq<Block>, itab: seq<Inode>, logged: set<nat>,
                    blocks': seq<Block>, logged': set<nat>, i: nat, w: nat, p: nat)
    requires FsOk(sb, blocks, itab) && i < |itab| && w < NINDIRECT && itab[i].addrs[NDIRECT] != 0
    requires Ptr(blocks, itab[i], NDIRECT + 1 + w) == 0 && p < sb.size && !Used(sb, blocks, p)
    requires Lowest(FreeBlocks(sb, blocks), {p}) && itab[i].addrs[NDIRECT] < sb.size
    requires blocks' == SetEntry(AllocAt(sb, blocks, p), itab[i].addrs[NDIRECT], w, p)
    requires logged' == logged + {sb.BBlock(p), p} + {itab[i].addrs[NDIRECT]}
    ensures Claims(sb, blocks, itab, logged, blocks', itab, logged', i, NDIRECT + w, {p})
  {
    hide FreeBlocks, Owned, Lowest, Ptr, Used, AllocAt, SetEntry, AllocLog, Claims, FsOk;
    LinkEntry(sb, blocks, itab, i, w, p);
    SizesFit(sb, blocks, itab);
    ClaimsLinked(sb, blocks, itab, logged, blocks', logged', i, w, p);
  }

  lemma ClaimsLinked(sb: Super, blocks: seq<Block>, itab: seq<Inode>, logged: set<nat>,
                     blocks': seq<Block>, logged': set<nat>, i: nat, w: nat, p: nat)
    requires sb.Ok() && |blocks| == sb.size && i < |itab| && w < NINDIRECT && itab[i].addrs[NDIRECT] != 0
    requires Ptr(blocks, itab[i], NDIRECT + 1 + w) == 0 && Lowest(FreeBlocks(sb, blocks), {p})
    requires Owned(blocks', itab) == Owned(blocks, itab) + {p}
    requires logged' == logged + {sb.BBlock(p), p} + {itab[i].addrs[NDIRECT]}
    ensures Claims(sb, blocks, itab, logged, blocks', itab, logged', i, NDIRECT + w, {p})
  {
    hide FreeBlocks, Owned, Lowest, Ptr, AllocLog;
    NeedsOf(blocks, itab[i], w);
    OneAllocLog(sb, p);
    Union3(logged, {sb.BBlock(p), p}, {itab[i].addrs[NDIRECT]});
  }

  /** Allocating the indirect block and then a block for its entry is one allocation of two. */
  lemma ClaimsBoth(sb: Super, blocks: seq<Block>, itab: seq<Inode>, logged: set<nat>,
                   blocks1: seq<Block>, itab1: seq<Inode>, logged1: set<nat>,
                   blocks': seq<Block>, logged': set<nat>, i: nat, w: nat, x: nat, got: set<nat>)
    requires FsOk(sb, blocks, itab) && FsOk(sb, blocks1, itab1) && i < |itab| == |itab1| && w < NINDIRECT
    requires itab[i].addrs[NDIRECT] == 0 && itab1[i].addrs[NDIRECT] == x != 0
    requires Ptr(blocks1, itab1[i], NDIRECT + 1 + w) == 0
    requires Took(sb, blocks, itab, blocks1, itab1, {x}, 1) && logged1 == logged + {sb.BBlock(x), x}
    requires Claims(sb, blocks1, itab1, logged1, blocks', itab1, logged', i, NDIRECT + w, got) && got != {}
    ensures Claims(sb, blocks, itab, logged, blocks', itab1, logged', i, NDIRECT + w, {x} + got)
  {
    hide FsOk, Took, AllocLog, BmapLog, Ptr, BmapNeeds;
    NeedsOf(blocks, itab[i], w);
    NeedsOf(blocks1, itab1[i], w);
    TookTwice(sb, blocks, itab, blocks1, itab1, blocks', itab1, {x}, got, 1, 1);
    BothLog(sb, logged, x, NDIRECT + w, got);
  }

  lemma BothLog(sb: Super, logged: set<nat>, x: nat, bn: nat, got: set<nat>)
    requires got != {} && bn >= NDIRECT
    ensures logged + {sb.BBlock(x), x} + BmapLog(sb, x, bn, got) == logged + BmapLog(sb, x, bn, {x} + got)
  {
    hide AllocLog;
    AllocLogs(sb, {x}, got);
    OneAllocLog(sb, x);
  }

  lemma OneAllocLog(sb: Super, x: nat)
    ensures AllocLog(sb, {x}) == {sb.BBlock(x), x}
  {
    assert BitmapBlocks(sb, {x}) == {sb.BBlock(x)};
  }

  /** bmap had what it needed. */
  lemma ClaimsCount(sb: Super, blocks: seq<Block>, itab: seq<Inode>, logged: set<nat>,
                    blocks': seq<Block>, itab': seq<Inode>, logged': set<nat>, i: nat, bn: nat, got: set<nat>)
    requires i < |itab| == |itab'| && bn < MAXFILE
             && Claims(sb, blocks, itab, logged, blocks', itab', logged', i, bn, got)
    ensures |FreeBlocks(sb, blocks)| >= BmapNeeds(blocks, itab[i], bn)
    ensures BmapNeeds(blocks, itab[i], bn) == 0 <==> got == {}
  {
    SubsetSize(got, FreeBlocks(sb, blocks));
  }

  lemma NeedsOf(blocks: seq<Block>, ip: Inode, w: nat)
    requires w < NINDIRECT
    ensures BmapNeeds(blocks, ip, NDIRECT + w)
         == if ip.addrs[NDIRECT] == 0 then 2 else if Ptr(blocks, ip, NDIRECT + 1 + w) != 0 then 0 else 1
  {
  }

  lemma EntryIs(blocks: seq<Block>, ip: Inode, w: nat)
    requires w < NINDIRECT && 0 < ip.addrs[NDIRECT] < |blocks|
    ensures Ptr(blocks, ip, NDIRECT + 1 + w) == GetWord(blocks[ip.addrs[NDIRECT]], w)
    ensures Slot(NDIRECT + w) == NDIRECT + 1 + w
  {
  }

  lemma LinkIndirect(sb: Super, blocks: seq<Block>, itab: seq<Inode>, i: nat, w: nat, x: nat)
    requires FsOk(sb, blocks, itab) && i < |itab| && w < NINDIRECT && itab[i].addrs[NDIRECT] == 0
    requires x < sb.size && !Used(sb, blocks, x)
    ensures var blocks', itab' := AllocAt(sb, blocks, x), SetAddr(itab, i, NDIRECT, x);
            && FsOk(sb, blocks', itab') && x != 0 && Ptr(blocks', itab'[i], NDIRECT + 1 + w) == 0
            && Owned(blocks', itab') == Owned(blocks, itab) + {x}
  {
    LinkDirect(sb, blocks, itab, i, NDIRECT, x);
    hide AllocAt, FsOk, Owned;
  }

  lemma MappedDirect(sb: Super, blocks: seq<Block>, itab: seq<Inode>, i: nat, bn: nat, b: nat)
    requires FsOk(sb, blocks, itab) && i < |itab| && bn < NDIRECT && itab[i].addrs[bn] == 0
    requires b < sb.size && !Used(sb, blocks, b)
    ensures Mapped(sb, blocks, itab, AllocAt(sb, blocks, b), SetAddr(itab, i, bn, b), i, bn, b)
  {
    LinkDirect(sb, blocks, itab, i, bn, b);
    OwnedInRange(sb, blocks, itab);
    hide AllocAt, BitmapIs, Disjoint, Owned, Blocks.GetWord;
  }

  lemma AllocatingStart(sb: Super, blocks: seq<Block>, itab: seq<Inode>, logged: set<nat>, i: nat, off: nat,
                        src: seq<byte>)
    requires Writing(sb, blocks, itab, blocks, itab, i, off, src, 0)
    ensures Allocating(sb, blocks, itab, logged, blocks, itab, logged, i, off, 0, {})
  {
    SizesFit(sb, blocks, itab);
    hide FsOk, Ptr, SameFile, ByteAt, FreeBlocks, Owned;
    LastInFile(off, 0);
    assert LoopLog(sb, blocks, itab[i], off, 0, {}) == {};
    assert Took(sb, blocks, itab, blocks, itab, {}, 0);
  }

  /** What the next turn will need, in a file without holes. */
  lemma TurnNeeds(sb: Super, blocks0: seq<Block>, itab0: seq<Inode>, logged0: set<nat>,
                  blocks: seq<Block>, itab: seq<Inode>, logged: set<nat>, i: nat, off: nat, tot: nat, m: nat,
                    got: set<nat>)
    requires Allocating(sb, blocks0, itab0, logged0, blocks, itab, logged, i, off, tot, got)
    requires 0 < m && (off + tot) % BSIZE + m <= BSIZE && (tot > 0 ==> Aligned(off + tot)) && off + tot + m <= MAXSIZE
    ensures (off + tot) / BSIZE < MAXFILE
    ensures Needs(itab0[i].size, off + tot + m)
         == Needs(itab0[i].size, off + tot) + BmapNeeds(blocks, itab[i], (off + tot) / BSIZE)
    ensures |FreeBlocks(sb, blocks)| == |FreeBlocks(sb, blocks0)| - Needs(itab0[i].size, off + tot)
  {
    hide FsOk, Ptr, Took, Needs, LoopLog, KeptPtrs, IndKept, LastTouched, Aligned, BlockCount, FreeBlocks;
    BlockBelow(off + tot, MAXSIZE);
    NeedsStep(blocks, itab[i], itab0[i].size, off, tot, m);
    TookLeaves(sb, blocks0, itab0, blocks, itab, got, Needs(itab0[i].size, off + tot));
  }

  lemma NeedsStep(blocks: seq<Block>, ip: Inode, size: nat, off: nat, tot: nat, m: nat)
    requires off <= size && 0 < m && (off + tot) % BSIZE + m <= BSIZE && (tot > 0 ==> Aligned(off + tot))
             && off + tot + m <= MAXSIZE
    requires (off + tot) / BSIZE < MAXFILE && Extent(blocks, ip, Max(size, off + tot))
    ensures Needs(size, off + tot + m) == Needs(size, off + tot) + BmapNeeds(blocks, ip, (off + tot) / BSIZE)
  {
    hide Ptr, Needs, Aligned, BlockCount, LastTouched, AddsEntry;
    var bn := (off + tot) / BSIZE;
    TurnCounts(size, off, tot, m);
    assert Ptr(blocks, ip, Slot(bn)) != 0 <==> bn * BSIZE < Max(size, off + tot);
  }

  lemma AllocatingStep(sb: Super, blocks0: seq<Block>, itab0: seq<Inode>, logged0: set<nat>,
                       blocks: seq<Block>, itab: seq<Inode>, logged: set<nat>,
                       blocks1: seq<Block>, itab1: seq<Inode>, logged1: set<nat>,
                       i: nat, off: nat, tot: nat, m: nat, got: set<nat>, more: set<nat>, p: nat, b: Block)
    requires Allocating(sb, blocks0, itab0, logged0, blocks, itab, logged, i, off, tot, got)
    requires 0 < m && (off + tot) % BSIZE + m <= BSIZE && (tot > 0 ==> Aligned(off + tot)) && off + tot + m <= MAXSIZE
    requires (off + tot) / BSIZE < MAXFILE && |itab1| == |itab| && p < |blocks1|
    requires Mapped(sb, blocks, itab, blocks1, itab1, i, (off + tot) / BSIZE, p)
    requires sb.Ok() && |blocks| == sb.size
    requires Claims(sb, blocks, itab, logged, blocks1, itab1, logged1, i, (off + tot) / BSIZE, more)
    requires more != {} ==> p in more
    ensures Allocating(sb, blocks0, itab0, logged0, blocks1[p := b], itab1, logged1 + {p}, i, off, tot + m, got + more)
  {
    hide FsOk, Ptr, Took, Needs, LoopLog, IndKept, KeptPtrs, Extent, Mapped, Aligned, LastTouched, Claims;
    var size, at := itab0[i].size, off + tot;
    LastInFile(off, tot + m);
    StepTook(sb, blocks0, itab0, logged0, blocks, itab, logged, blocks1, itab1, logged1, i, off, tot, m, got, more, p,
             b);
    TurnLog(sb, blocks0, itab0, logged0, blocks, itab, logged, blocks1, itab1, logged1, i, off, tot, m, got, more, p);
    StepShape(sb, blocks0, itab0, logged0, blocks, itab, logged, blocks1, itab1, i, off, tot, m, got, p, b);
  }

  lemma StepTook(sb: Super, blocks0: seq<Block>, itab0: seq<Inode>, logged0: set<nat>,
                 blocks: seq<Block>, itab: seq<Inode>, logged: set<nat>,
                 blocks1: seq<Block>, itab1: seq<Inode>, logged1: set<nat>,
                 i: nat, off: nat, tot: nat, m: nat, got: set<nat>, more: set<nat>, p: nat, b: Block)
    requires Allocating(sb, blocks0, itab0, logged0, blocks, itab, logged, i, off, tot, got)
    requires 0 < m && (off + tot) % BSIZE + m <= BSIZE && (tot > 0 ==> Aligned(off + tot)) && off + tot + m <= MAXSIZE
    requires (off + tot) / BSIZE < MAXFILE && |itab1| == |itab| && p < |blocks1|
    requires Mapped(sb, blocks, itab, blocks1, itab1, i, (off + tot) / BSIZE, p)
    requires Claims(sb, blocks, itab, logged, blocks1, itab1, logged1, i, (off + tot) / BSIZE, more)
    ensures Took(sb, blocks0, itab0, blocks1[p := b], itab1, got + more, Needs(itab0[i].size, off + tot + m))
    ensures IndKept(itab0[i], itab1[i], got + more)
  {
    hide FsOk, Ptr, Took, Needs, LoopLog, IndKept, KeptPtrs, BmapNeeds, Extent, Mapped, Aligned, LastTouched;
    var size, at := itab0[i].size, off + tot;
    var bn := at / BSIZE;
    TurnNeeds(sb, blocks0, itab0, logged0, blocks, itab, logged, i, off, tot, m, got);
    TookTwice(sb, blocks0, itab0, blocks, itab, blocks1, itab1, got, more, Needs(size, at),
              BmapNeeds(blocks, itab[i], bn));
    IndKeptTwice(itab0[i], itab[i], itab1[i], got, more);
    hide Allocating, Claims;
    MappedFacts(sb, blocks, itab, blocks1, itab1, i, bn, p);
    PatchOk(sb, blocks1, itab1, i, bn, b);
    TookPatched(sb, blocks0, itab0, blocks1, blocks1[p := b], itab1, got + more, Needs(size, at + m));
  }

  lemma StepShape(sb: Super, blocks0: seq<Block>, itab0: seq<Inode>, logged0: set<nat>,
                  blocks: seq<Block>, itab: seq<Inode>, logged: set<nat>, blocks1: seq<Block>, itab1: seq<Inode>,
                  i: nat, off: nat, tot: nat, m: nat, got: set<nat>, p: nat, b: Block)
    requires Allocating(sb, blocks0, itab0, logged0, blocks, itab, logged, i, off, tot, got)
    requires 0 < m && (off + tot) % BSIZE + m <= BSIZE && off + tot + m <= MAXSIZE
    requires (off + tot) / BSIZE < MAXFILE && |itab1| == |itab| && p < |blocks1|
    requires Mapped(sb, blocks, itab, blocks1, itab1, i, (off + tot) / BSIZE, p)
    ensures FsOk(sb, blocks1[p := b], itab1) && Extent(blocks1[p := b], itab1[i], Max(itab0[i].size, off + tot + m))
    ensures KeptPtrs(blocks0, itab0[i], blocks1[p := b], itab1[i], itab0[i].size)
  {
    hide FsOk, Ptr, Took, Needs, LoopLog, IndKept, KeptPtrs, Extent, Mapped, LastTouched;
    var size, at := itab0[i].size, off + tot;
    var bn := at / BSIZE;
    var blocks2 := blocks1[p := b];
    var e := Max(size, at);
    MappedFacts(sb, blocks, itab, blocks1, itab1, i, bn, p);
    TurnExtent(sb, blocks, itab, blocks1, itab1, i, at, m, p, e);
    hide Turn;
    PatchOk(sb, blocks1, itab1, i, bn, b);
    ExtentSamePtrs(blocks1, blocks2, itab1, i, Max(e, at + m));
    KeptStep(sb, blocks0, itab0[i], blocks, itab, blocks1, itab1, blocks2, i, bn, p, size, e);
  }

  lemma TookPatched(sb: Super, blocks0: seq<Block>, itab0: seq<Inode>, blocks1: seq<Block>, blocks2: seq<Block>,
                    itab: seq<Inode>, got: set<nat>, k: nat)
    requires Took(sb, blocks0, itab0, blocks1, itab, got, k) && Owned(blocks2, itab) == Owned(blocks1, itab)
    ensures Took(sb, blocks0, itab0, blocks2, itab, got, k)
  {
  }

  lemma KeptStep(sb: Super, blocks0: seq<Block>, ip0: Inode, blocks: seq<Block>, itab: seq<Inode>,
                 blocks1: seq<Block>, itab1: seq<Inode>, blocks2: seq<Block>, i: nat, bn: nat, p: nat, size: nat,
                   e: nat)
    requires i < |itab| == |itab1| && bn < MAXFILE && Mapped(sb, blocks, itab, blocks1, itab1, i, bn, p)
    requires Extent(blocks, itab[i], e) && size <= e && KeptPtrs(blocks0, ip0, blocks, itab[i], size)
    requires SamePtrs(blocks1, blocks2, itab1)
    ensures KeptPtrs(blocks0, ip0, blocks2, itab1[i], size)
  {
    hide Ptr, Mapped, Extent;
    forall c: nat | c < MAXFILE && c * BSIZE < size
      ensures Ptr(blocks2, itab1[i], Slot(c)) == Ptr(blocks0, ip0, Slot(c))
    {
      KeptPtr(sb, blocks, itab, blocks1, itab1, i, bn, p, e, c);
    }
  }

  lemma KeptPtr(sb: Super, blocks: seq<Block>, itab: seq<Inode>, blocks1: seq<Block>, itab1: seq<Inode>,
                i: nat, bn: nat, p: nat, e: nat, c: nat)
    requires i < |itab| && bn < MAXFILE && Mapped(sb, blocks, itab, blocks1, itab1, i, bn, p)
    requires Extent(blocks, itab[i], e) && c < MAXFILE && c * BSIZE < e
    ensures Ptr(blocks1, itab1[i], Slot(c)) == Ptr(blocks, itab[i], Slot(c))
  {
    hide Ptr, FsOk, Owned;
    assert Ptr(blocks, itab[i], Slot(c)) != 0;
    if c != bn {
      assert Slot(c) != Slot(bn) && Slot(c) != NDIRECT;
    }
  }

  lemma TurnLog(sb: Super, blocks0: seq<Block>, itab0: seq<Inode>, logged0: set<nat>,
                blocks: seq<Block>, itab: seq<Inode>, logged: set<nat>,
                blocks1: seq<Block>, itab1: seq<Inode>, logged1: set<nat>,
                i: nat, off: nat, tot: nat, m: nat, got: set<nat>, more: set<nat>, p: nat)
    requires Allocating(sb, blocks0, itab0, logged0, blocks, itab, logged, i, off, tot, got)
    requires 0 < m && (off + tot) % BSIZE + m <= BSIZE && (tot > 0 ==> Aligned(off + tot)) && off + tot + m <= MAXSIZE
    requires (off + tot) / BSIZE < MAXFILE && |itab1| == |itab| && LastTouched(off, tot + m) <= MAXFILE
    requires Mapped(sb, blocks, itab, blocks1, itab1, i, (off + tot) / BSIZE, p)
    requires sb.Ok() && |blocks| == sb.size
    requires Claims(sb, blocks, itab, logged, blocks1, itab1, logged1, i, (off + tot) / BSIZE, more)
    requires more != {} ==> p in more
    ensures logged1 + {p} == logged0 + LoopLog(sb, blocks0, itab0[i], off, tot + m, got + more)
  {
    hide FsOk, Ptr, Took, Needs, LoopLog, BmapLog, Aligned, Mapped, LastTouched, KeptPtrs, Extent;
    var bn := (off + tot) / BSIZE;
    IndKeptTwice(itab0[i], itab[i], itab1[i], got, more);
    MoreOrNot(sb, blocks, itab, logged, blocks1, itab1, logged1, i, bn, more);
    TurnPtr(sb, blocks0, itab0, logged0, blocks, itab, logged, blocks1, itab1, i, off, tot, m, got, p);
    hide Allocating, Claims;
    LogStep(sb, blocks0, itab0[i], off, tot, m, got, more, p, itab1[i].addrs[NDIRECT]);
    var log := LoopLog(sb, blocks0, itab0[i], off, tot, got);
    Union3(logged0, log, BmapLog(sb, itab1[i].addrs[NDIRECT], bn, more));
    Union3(logged0, log + BmapLog(sb, itab1[i].addrs[NDIRECT], bn, more), {p});
  }

  lemma LogStep(sb: Super, blocks0: seq<Block>, ip0: Inode, off: nat, tot: nat, m: nat,
                got: set<nat>, more: set<nat>, p: nat, ind: nat)
    requires off <= ip0.size && 0 < m && (off + tot) % BSIZE + m <= BSIZE && (tot > 0 ==> Aligned(off + tot))
    requires off + tot + m <= MAXSIZE && LastTouched(off, tot) <= MAXFILE && LastTouched(off, tot + m) <= MAXFILE
    requires (off + tot) / BSIZE < MAXFILE
    requires var bn := (off + tot) / BSIZE; var q := Ptr(blocks0, ip0, Slot(bn));
             if bn * BSIZE < Max(ip0.size, off + tot) then q == p != 0 && more == {} else q == 0 && p in more
    requires ip0.addrs[NDIRECT] != 0 ==> ind == ip0.addrs[NDIRECT]
    requires ip0.addrs[NDIRECT] == 0 && (off + tot) / BSIZE >= NDIRECT ==> ind in got + more
    ensures LoopLog(sb, blocks0, ip0, off, tot + m, got + more)
         == LoopLog(sb, blocks0, ip0, off, tot, got) + BmapLog(sb, ind, (off + tot) / BSIZE, more) + {p}
  {
    hide Ptr, LoopLog, AllocLog, Aligned, LastTouched;
    var bn := (off + tot) / BSIZE;
    var log := LoopLog(sb, blocks0, ip0, off, tot, got);
    if bn * BSIZE < Max(ip0.size, off + tot) {
      assert got + more == got;
      NoAllocLog(sb);
      assert log + BmapLog(sb, ind, bn, more) == log;
      TurnCounts(ip0.size, off, tot, m);
      ExistingTurn(sb, blocks0, ip0, off, tot, m, got, p);
    } else {
      NewTurn(sb, blocks0, ip0, off, tot, m, got, more, p, ind);
      Union3(log, AllocLog(sb, more), if bn >= NDIRECT then {ind} else {});
    }
  }

  lemma MoreOrNot(sb: Super, blocks: seq<Block>, itab: seq<Inode>, logged: set<nat>,
                  blocks1: seq<Block>, itab1: seq<Inode>, logged1: set<nat>, i: nat, bn: nat, more: set<nat>)
    requires i < |itab| == |itab1| && bn < MAXFILE
    requires Claims(sb, blocks, itab, logged, blocks1, itab1, logged1, i, bn, more)
    ensures more == {} <==> Ptr(blocks, itab[i], Slot(bn)) != 0
  {
    hide Ptr;
  }

  /** Which entry the turn finds, in terms of the state before the write. */
  lemma TurnPtr(sb: Super, blocks0: seq<Block>, itab0: seq<Inode>, logged0: set<nat>,
                blocks: seq<Block>, itab: seq<Inode>, logged: set<nat>, blocks1: seq<Block>, itab1: seq<Inode>,
                i: nat, off: nat, tot: nat, m: nat, got: set<nat>, p: nat)
    requires Allocating(sb, blocks0, itab0, logged0, blocks, itab, logged, i, off, tot, got)
    requires 0 < m && (off + tot) % BSIZE + m <= BSIZE && (tot > 0 ==> Aligned(off + tot)) && off + tot + m <= MAXSIZE
    requires (off + tot) / BSIZE < MAXFILE && Mapped(sb, blocks, itab, blocks1, itab1, i, (off + tot) / BSIZE, p)
    ensures i < |itab0| == |itab| && off <= itab0[i].size && LastTouched(off, tot) <= MAXFILE
    ensures logged == logged0 + LoopLog(sb, blocks0, itab0[i], off, tot, got)
    ensures var bn := (off + tot) / BSIZE; var existing := bn * BSIZE < Max(itab0[i].size, off + tot);
            && (Ptr(blocks, itab[i], Slot(bn)) != 0 <==> existing)
            && (existing ==> p == Ptr(blocks0, itab0[i], Slot(bn)) != 0)
            && (!existing ==> Ptr(blocks0, itab0[i], Slot(bn)) == 0)
    ensures (off + tot) / BSIZE >= NDIRECT ==> itab1[i].addrs[NDIRECT] != 0
  {
    var bn := (off + tot) / BSIZE;
    TurnCounts(itab0[i].size, off, tot, m);
    hide FsOk, Ptr, Took, Owned, Needs, LoopLog, Aligned;
    assert Ptr(blocks, itab[i], Slot(bn)) != 0 <==> bn * BSIZE < Max(itab0[i].size, off + tot);
    assert Ptr(blocks0, itab0[i], Slot(bn)) != 0 <==> bn * BSIZE < itab0[i].size;
  }

  lemma NoAllocLog(sb: Super)
    ensures AllocLog(sb, {}) == {}
  {
  }

  lemma AllocatingEnough(sb: Super, blocks0: seq<Block>, itab0: seq<Inode>, logged0: set<nat>,
                         blocks: seq<Block>, itab: seq<Inode>, logged: set<nat>, i: nat, off: nat, n: nat,
                           got: set<nat>)
    requires Allocating(sb, blocks0, itab0, logged0, blocks, itab, logged, i, off, n, got)
    ensures |FreeBlocks(sb, blocks0)| >= Needs(itab0[i].size, off + n)
  {
    hide Needs, LoopLog, Extent, KeptPtrs, LastTouched;
    SubsetSize(got, FreeBlocks(sb, blocks0));
  }

  lemma AllocatedAll(sb: Super, blocks0: seq<Block>, itab0: seq<Inode>, logged0: set<nat>,
                     blocks: seq<Block>, itab: seq<Inode>, logged: set<nat>, i: nat, off: nat, n: nat, got: set<nat>,
                       ip: Inode)
    requires Allocating(sb, blocks0, itab0, logged0, blocks, itab, logged, i, off, n, got) && ip.addrs == itab[i].addrs
    ensures LastTouched(off, n) <= MAXFILE && Lowest(FreeBlocks(sb, blocks0), got)
            && |got| == Needs(itab0[i].size, off + n)
    ensures Owned(blocks, itab[i := ip]) == Owned(blocks, itab) == Owned(blocks0, itab0) + got
    ensures logged == logged0 + LoopLog(sb, blocks0, itab0[i], off, n, got)
  {
    hide FsOk, Owned, Lowest, FreeBlocks, LoopLog, Extent, KeptPtrs, LastTouched, Needs;
    SizeIrrelevant(sb, blocks, itab, i, ip);
  }

  // ---- files without holes ----

  /** No file has a hole, or a block past its end. */
  ghost predicate NoHoles(blocks: seq<Block>, itab: seq<Inode>) {
    forall j :: 0 <= j < |itab| ==> itab[j].size <= MAXSIZE && Extent(blocks, itab[j], itab[j].size)
  }

  /** Empty files have no holes. */
  lemma EmptyHasNoHoles(blocks: seq<Block>, ip: Inode)
    requires ip.size == 0 && forall s :: 0 <= s <= NDIRECT ==> ip.addrs[s] == 0
    ensures Extent(blocks, ip, 0)
  {
  }

  /** An operation that leaves file i without holes and the other files as they were keeps holes away. */
  lemma HolesKept(blocks: seq<Block>, itab: seq<Inode>, blocks': seq<Block>, itab': seq<Inode>, i: nat)
    requires NoHoles(blocks, itab) && i < |itab| == |itab'| && itab' == itab[i := itab'[i]]
    requires itab'[i].size <= MAXSIZE && Extent(blocks', itab'[i], itab'[i].size)
    requires forall j :: 0 <= j < |itab| && j != i ==> SameFile(blocks, blocks', itab'[j])
    ensures NoHoles(blocks', itab')
  {
    hide Extent, SameFile;
    forall j | 0 <= j < |itab|
      ensures itab'[j].size <= MAXSIZE && Extent(blocks', itab'[j], itab'[j].size)
    {
      if j != i {
        SameContents(blocks, blocks', itab'[j]);
      }
    }
  }

  lemma TruncOthers(sb: Super, blocks0: seq<Block>, itab0: seq<Inode>, blocks: seq<Block>, itab: seq<Inode>, i: nat)
    requires FsOk(sb, blocks0, itab0) && i < |itab0| == |itab| && |blocks| == sb.size && itab == itab0[i := itab[i]]
    requires forall x :: sb.datastart <= x < sb.size ==> blocks[x] == blocks0[x]
    requires forall j, t :: 0 <= j < |itab| && 0 <= t < SLOTS ==>
               Ptr(blocks, itab[j], t) == if j == i then 0 else Ptr(blocks0, itab0[j], t)
    ensures forall j :: 0 <= j < |itab| && j != i ==> SameFile(blocks0, blocks, itab[j])
  {
    hide Ptr, BitmapIs;
  }

  datatype IoResult = Failed | Panicked | Done

  /** min(left, BSIZE - at % BSIZE): how much of the rest lies in the block of `at`. */
  function Span(at: nat, left: nat): (m: nat)
    requires left > 0
    ensures 0 < m <= left && at % BSIZE + m <= BSIZE
    ensures m < left ==> Aligned(at + m)
  {
    if left < BSIZE - at % BSIZE then left else BSIZE - at % BSIZE
  }

  // ---- what is logged is what changes ----

  /** Blocks that have changed since `blocks0` have been logged since `logged0`, and only blocks of the bitmap and of
      data have been. */
  ghost predicate Tracks(sb: Super, blocks0: seq<Block>, logged0: set<nat>, blocks: seq<Block>, logged: set<nat>) {
    && |blocks| == |blocks0| && logged0 <= logged
    && (forall b :: b in logged ==> b in logged0 || sb.bmapstart <= b < sb.size)
    && forall b :: 0 <= b < |blocks| && b !in logged ==> blocks[b] == blocks0[b]
  }

  lemma TracksNone(sb: Super, blocks: seq<Block>, logged: set<nat>)
    ensures Tracks(sb, blocks, logged, blocks, logged)
  {
  }

  lemma TracksTwice(sb: Super, blocks0: seq<Block>, logged0: set<nat>, blocks1: seq<Block>, logged1: set<nat>,
                    blocks2: seq<Block>, logged2: set<nat>)
    requires Tracks(sb, blocks0, logged0, blocks1, logged1) && Tracks(sb, blocks1, logged1, blocks2, logged2)
    ensures Tracks(sb, blocks0, logged0, blocks2, logged2)
  {
  }

  lemma TracksSet(sb: Super, blocks: seq<Block>, logged: set<nat>, p: nat, data: Block)
    requires sb.bmapstart <= p < sb.size == |blocks|
    ensures Tracks(sb, blocks, logged, blocks[p := data], logged + {p})
  {
  }

  lemma TracksAlloc(sb: Super, blocks: seq<Block>, itab: seq<Inode>, logged: set<nat>, p: nat)
    requires FsOk(sb, blocks, itab) && p < sb.size && !Used(sb, blocks, p)
    ensures Tracks(sb, blocks, logged, AllocAt(sb, blocks, p), logged + {sb.BBlock(p), p})
  {
    FreeIsData(sb, blocks, itab, p);
    BitmapBlockIn(sb, p);
    hide FsOk, Used, Super.BBlock, MarkUsed, Super.Ok;
  }

  lemma FreeIsData(sb: Super, blocks: seq<Block>, itab: seq<Inode>, p: nat)
    requires FsOk(sb, blocks, itab) && p < sb.size && !Used(sb, blocks, p)
    ensures p >= sb.datastart
  {
    hide Disjoint, Owned, Used;
  }

  lemma BitmapBlockIn(sb: Super, p: nat)
    requires sb.Ok() && p < sb.size
    ensures sb.InBitmap(sb.BBlock(p)) && sb.bmapstart <= sb.BBlock(p) < sb.datastart && sb.bmapstart < sb.datastart
  {
  }

  lemma TracksData(sb: Super, blocks0: seq<Block>, logged0: set<nat>, blocks: seq<Block>, itab: seq<Inode>,
                   logged: set<nat>, p: nat, data: Block)
    requires FsOk(sb, blocks, itab) && InRange(sb, p) && Tracks(sb, blocks0, logged0, blocks, logged)
    ensures p < |blocks| && Tracks(sb, blocks0, logged0, blocks[p := data], logged + {p})
  {
    hide Tracks, Disjoint, BitmapIs;
    TracksSet(sb, blocks, logged, p, data);
    TracksTwice(sb, blocks0, logged0, blocks, logged, blocks[p := data], logged + {p});
  }

  lemma TracksFree(sb: Super, blocks: seq<Block>, logged: set<nat>, p: nat)
    requires sb.Ok() && |blocks| == sb.size && p < sb.size && Used(sb, blocks, p)
    ensures Tracks(sb, blocks, logged, FreeAt(sb, blocks, p), logged + {sb.BBlock(p)})
  {
  }

  /** ... and freeing logs bitmap blocks only. */
  ghost predicate FreesTracked(sb: Super, blocks0: seq<Block>, logged0: set<nat>, blocks: seq<Block>,
                               logged: set<nat>) {
    && Tracks(sb, blocks0, logged0, blocks, logged)
    && forall b :: b in logged ==> b in logged0 || sb.InBitmap(b)
  }

  lemma FreesNone(sb: Super, blocks: seq<Block>, logged: set<nat>)
    ensures FreesTracked(sb, blocks, logged, blocks, logged)
  {
  }

  lemma FreesOne(sb: Super, blocks0: seq<Block>, logged0: set<nat>, blocks: seq<Block>, logged: set<nat>, p: nat)
    requires FreesTracked(sb, blocks0, logged0, blocks, logged)
    requires sb.Ok() && |blocks| == sb.size && p < sb.size && Used(sb, blocks, p)
    ensures FreesTracked(sb, blocks0, logged0, FreeAt(sb, blocks, p), logged + {sb.BBlock(p)})
  {
    hide Used, FreeAt;
    TracksFree(sb, blocks, logged, p);
    TracksTwice(sb, blocks0, logged0, blocks, logged, FreeAt(sb, blocks, p), logged + {sb.BBlock(p)});
  }

  lemma FreesTwice(sb: Super, blocks0: seq<Block>, logged0: set<nat>, blocks1: seq<Block>, logged1: set<nat>,
                   blocks2: seq<Block>, logged2: set<nat>)
    requires FreesTracked(sb, blocks0, logged0, blocks1, logged1)
    requires FreesTracked(sb, blocks1, logged1, blocks2, logged2)
    ensures FreesTracked(sb, blocks0, logged0, blocks2, logged2)
  {
    hide Tracks;
    TracksTwice(sb, blocks0, logged0, blocks1, logged1, blocks2, logged2);
  }

  /** The same for a call on inode i, which may log the inode's block as well. */
  ghost predicate CallTracks(sb: Super, i: nat, blocks0: seq<Block>, logged0: set<nat>, blocks: seq<Block>,
                             logged: set<nat>) {
    && |blocks| == |blocks0| && logged0 <= logged
    && (forall b :: b in logged ==> b in logged0 || b == sb.IBlock(i) || sb.bmapstart <= b < sb.size)
    && forall b :: 0 <= b < |blocks| && b !in logged ==> blocks[b] == blocks0[b]
  }

  lemma TracksInode(sb: Super, i: nat, blocks0: seq<Block>, logged0: set<nat>, blocks: seq<Block>, logged: set<nat>)
    requires Tracks(sb, blocks0, logged0, blocks, logged)
    ensures CallTracks(sb, i, blocks0, logged0, blocks, logged)
    ensures CallTracks(sb, i, blocks0, logged0, blocks, logged + {sb.IBlock(i)})
  {
  }

  class Fs {
    const sb: Super
    var blocks: seq<Block>
    var itab: seq<Inode>
    var dtab: seq<Inode>
    /** The blocks that the current call has passed to log_write. */
    var logged: set<nat>

    ghost predicate Valid()
      reads this
    {
      FsOk(sb, blocks, itab) && |itab| == |dtab| <= sb.ninodes
    }

    constructor (sb: Super, blocks: seq<Block>, itab: seq<Inode>)
      requires FsOk(sb, blocks, itab) && |itab| <= sb.ninodes
      ensures Valid() && this.sb == sb && this.blocks == blocks && this.itab == itab && dtab == itab && logged == {}
    {
      this.sb, this.blocks, this.itab, dtab := sb, blocks, itab, itab;
      logged := {};
    }

    /** balloc: the lowest-numbered free block, now marked and zeroed. None is the panic
        "out of blocks", which means every block is in use. */
    method Balloc() returns (r: Option<nat>)
      requires sb.Ok() && |blocks| == sb.size
      modifies this`blocks, this`logged
      ensures r.Some? ==>
                && r.value < sb.size && !Used(sb, old(blocks), r.value)
                && (forall c: nat :: c < r.value ==> Used(sb, old(blocks), c))
                && blocks == AllocAt(sb, old(blocks), r.value)
                && logged == old(logged) + {sb.BBlock(r.value), r.value}
                && Lowest(FreeBlocks(sb, old(blocks)), {r.value})
      ensures r.None? ==> |blocks| == sb.size && FreeBlocks(sb, blocks) == {}
      ensures r.None? ==>
                blocks == old(blocks) && logged == old(logged) && forall c: nat :: c < sb.size ==> Used(sb, blocks, c)
    {
      hide Super.BBlock, BitIndex, BlockBit, MarkUsed;
      var b := 0;
      while b < sb.size
        invariant b % BPB == 0 && blocks == old(blocks) && logged == old(logged)
        invariant forall c: nat :: c < b && c < sb.size ==> Used(sb, blocks, c)
      {
        var bm := sb.BBlock(b);
        var bi := 0;
        while bi < BPB && b + bi < sb.size
          invariant 0 <= bi <= BPB && blocks == old(blocks) && logged == old(logged)
          invariant forall c: nat :: c < b + bi && c < sb.size ==> Used(sb, blocks, c)
        {
          InBitmapBlock(sb, b, bi);
          if !BlockBit(blocks[bm], bi) {
            blocks := blocks[bm := MarkUsed(blocks[bm], bi)];
            LogWrite(bm);
            Bzero(b + bi);
            return Some(b + bi);
          }
          bi := bi + 1;
        }
        b := b + BPB;
      }
      return None;
    }

    method Bzero(b: nat)
      requires b < |blocks|
      modifies this`blocks, this`logged
      ensures blocks == old(blocks)[b := ZeroBlock()] && logged == old(logged) + {b}
    {
      blocks := blocks[b := ZeroBlock()];
      LogWrite(b);
    }

    /** log_write, as far as the space of a transaction is concerned. */
    method LogWrite(b: nat)
      modifies this`logged
      ensures logged == old(logged) + {b}
    {
      logged := logged + {b};
    }

    /** bfree; false is the panic "freeing free block". */
    method Bfree(b: nat) returns (ok: bool)
      requires sb.Ok() && |blocks| == sb.size && b < sb.size
      modifies this`blocks, this`logged
      ensures ok == Used(sb, old(blocks), b)
      ensures ok ==> blocks == FreeAt(sb, old(blocks), b) && logged == old(logged) + {sb.BBlock(b)}
      ensures !ok ==> blocks == old(blocks) && logged == old(logged)
    {
      var bm, bi := sb.BBlock(b), BitIndex(b);
      if !BlockBit(blocks[bm], bi) {
        return false;
      }
      blocks := blocks[bm := MarkFree(blocks[bm], bi)];
      LogWrite(bm);
      return true;
    }

    /** ip->addrs[s] = balloc(ip->dev) for an empty slot. */
    method AllocAddr(i: nat, s: nat) returns (r: Option<nat>)
      requires Valid() && i < |itab| && s <= NDIRECT && itab[i].addrs[s] == 0
      modifies this`blocks, this`itab, this`logged
      ensures r.Some? ==>
                && r.value < sb.size && !Used(sb, old(blocks), r.value)
                && blocks == AllocAt(sb, old(blocks), r.value)
                && itab == SetAddr(old(itab), i, s, r.value)
                && logged == old(logged) + {sb.BBlock(r.value), r.value}
                && Lowest(FreeBlocks(sb, old(blocks)), {r.value})
      ensures r.None? ==> blocks == old(blocks) && FreeBlocks(sb, blocks) == {}
    {
      r := Balloc();
      if r.Some? {
        itab := itab[i := itab[i].(addrs := itab[i].addrs[s := r.value])];
      }
    }

    /** bmap. None is one of its panics: below MAXFILE it happens exactly if the disk has too few free blocks,
        and leaves none. `got` are the blocks allocated. */
    method Bmap(i: nat, bn: nat) returns (r: Option<nat>, ghost got: set<nat>)
      requires Valid() && i < |itab|
      modifies this`blocks, this`itab, this`logged
      ensures bn >= MAXFILE ==> r.None?
      ensures bn < MAXFILE ==> (r.None? <==> |FreeBlocks(sb, old(blocks))| < BmapNeeds(old(blocks), old(itab)[i], bn))
      ensures r.None? && bn < MAXFILE ==> |blocks| == sb.size && FreeBlocks(sb, blocks) == {}
      ensures r.Some? ==>
                && Valid()
                && Mapped(sb, old(blocks), old(itab), blocks, itab, i, bn, r.value)
                && Claims(sb, old(blocks), old(itab), old(logged), blocks, itab, logged, i, bn, got)
                && (got != {} ==> r.value in got)
                && Tracks(sb, old(blocks), old(logged), blocks, logged)
      ensures r.Some? ==>
                if bn < 12 then itab[i].addrs[bn] == r.value
                else 0 < itab[i].addrs[12] < |blocks| && GetWord(blocks[itab[i].addrs[12]], bn - 12) == r.value
    {
      hide FsOk, Mapped, Claims, Tracks, FreeBlocks, BmapNeeds;
      got := {};
      if bn < NDIRECT {
        r, got := BmapDirect(i, bn);
        if r.Some? {
          MappedPlace(sb, old(blocks), old(itab), blocks, itab, i, bn, r.value);
        }
        return;
      }
      if bn < MAXFILE {
        r, got := BmapIndirect(i, bn - NDIRECT);
        if r.Some? {
          MappedPlace(sb, old(blocks), old(itab), blocks, itab, i, bn, r.value);
        }
        return;
      }
      r := None;
    }

    method BmapDirect(i: nat, bn: nat) returns (r: Option<nat>, ghost got: set<nat>)
      requires Valid() && i < |itab| && bn < NDIRECT
      modifies this`blocks, this`itab, this`logged
      ensures r.None? <==> |FreeBlocks(sb, old(blocks))| < BmapNeeds(old(blocks), old(itab)[i], bn)
      ensures r.None? ==> |blocks| == sb.size && FreeBlocks(sb, blocks) == {}
      ensures r.Some? ==>
                && Valid()
                && Mapped(sb, old(blocks), old(itab), blocks, itab, i, bn, r.value)
                && Claims(sb, old(blocks), old(itab), old(logged), blocks, itab, logged, i, bn, got)
                && (got != {} ==> r.value in got)
                && Tracks(sb, old(blocks), old(logged), blocks, logged)
    {
      hide BitmapIs, Disjoint, Used, AllocAt, Owned, Blocks.GetWord, Tracks, FreeBlocks, Claims, Mapped;
      got := {};
      var addr := itab[i].addrs[bn];
      if addr == 0 {
        r := AllocAddr(i, bn);
        if r.Some? {
          LinkDirect(sb, old(blocks), old(itab), i, bn, r.value);
          got := {r.value};
          ClaimsOne(sb, old(blocks), old(itab), old(logged), blocks, itab, logged, i, bn, r.value);
          ClaimsCount(sb, old(blocks), old(itab), old(logged), blocks, itab, logged, i, bn, got);
          TracksAlloc(sb, old(blocks), old(itab), old(logged), r.value);
          MappedDirect(sb, old(blocks), old(itab), i, bn, r.value);
        }
      } else {
        r := Some(addr);
        MappedAlready(sb, blocks, itab, i, bn);
        ClaimsNone(sb, blocks, itab, logged, i, bn);
        TracksNone(sb, blocks, logged);
      }
    }

    method BmapIndirect(i: nat, w: nat) returns (r: Option<nat>, ghost got: set<nat>)
      requires Valid() && i < |itab| && w < NINDIRECT
      modifies this`blocks, this`itab, this`logged
      ensures r.None? <==> |FreeBlocks(sb, old(blocks))| < BmapNeeds(old(blocks), old(itab)[i], NDIRECT + w)
      ensures r.None? ==> |blocks| == sb.size && FreeBlocks(sb, blocks) == {}
      ensures r.Some? ==>
                && Valid()
                && Mapped(sb, old(blocks), old(itab), blocks, itab, i, NDIRECT + w, r.value)
                && Claims(sb, old(blocks), old(itab), old(logged), blocks, itab, logged, i, NDIRECT + w, got)
                && (got != {} ==> r.value in got)
                && Tracks(sb, old(blocks), old(logged), blocks, logged)
    {
      hide BitmapIs, Disjoint, Used, AllocAt, FsOk, Ptr, Owned, PtrsExcept, Mapped, Claims, FreeBlocks, BmapNeeds,
           Tracks;
      NeedsOf(blocks, itab[i], w);
      SizesFit(sb, blocks, itab);
      got := {};
      var addr := itab[i].addrs[NDIRECT];
      if addr == 0 {
        var a := AllocAddr(i, NDIRECT);
        if a.None? {
          return None, {};
        }
        LinkIndirect(sb, old(blocks), old(itab), i, w, a.value);
        TracksAlloc(sb, old(blocks), old(itab), old(logged), a.value);
        r, got := NewEntry(i, w, old(blocks), old(itab), old(logged), a.value);
        return;
      }
      IndirectInRange(sb, blocks, itab, i);
      EntryIs(blocks, itab[i], w);
      var p := GetWord(blocks[addr], w);
      if p == 0 {
        r, got := AddEntry(i, w);
        if r.Some? {
          ClaimsCount(sb, old(blocks), itab, old(logged), blocks, itab, logged, i, NDIRECT + w, got);
        }
      } else {
        MappedAlready(sb, blocks, itab, i, NDIRECT + w);
        ClaimsNone(sb, blocks, itab, logged, i, NDIRECT + w);
        TracksNone(sb, blocks, logged);
        r := Some(p);
      }
    }

    /** A block for an empty entry of an existing indirect block. */
    method AddEntry(i: nat, w: nat) returns (r: Option<nat>, ghost got: set<nat>)
      requires Valid() && i < |itab| && w < NINDIRECT && itab[i].addrs[NDIRECT] != 0
      requires Ptr(blocks, itab[i], NDIRECT + 1 + w) == 0
      modifies this`blocks, this`logged
      ensures r.None? ==> blocks == old(blocks) && FreeBlocks(sb, blocks) == {}
      ensures r.Some? ==>
                && Valid()
                && Mapped(sb, old(blocks), itab, blocks, itab, i, NDIRECT + w, r.value)
                && Claims(sb, old(blocks), itab, old(logged), blocks, itab, logged, i, NDIRECT + w, got)
                && r.value in got && |blocks| == sb.size
                && blocks == SetEntry(AllocAt(sb, old(blocks), r.value), itab[i].addrs[NDIRECT], w, r.value)
                && Tracks(sb, old(blocks), old(logged), blocks, logged)
    {
      hide BitmapIs, Disjoint, Used, AllocAt, Ptr, Owned, PtrsExcept, Mapped, Claims, FreeBlocks, Tracks;
      got := {};
      var addr := itab[i].addrs[NDIRECT];
      var b := Balloc();
      if b.None? {
        return None, {};
      }
      MappedEntry(sb, old(blocks), itab, i, w, b.value);
      IndirectInRange(sb, old(blocks), itab, i);
      TracksAlloc(sb, old(blocks), itab, old(logged), b.value);
      TracksSet(sb, blocks, logged, addr, SetWord(blocks[addr], w, b.value));
      TracksTwice(sb, old(blocks), old(logged), blocks, logged,
                  blocks[addr := SetWord(blocks[addr], w, b.value)], logged + {addr});
      blocks := blocks[addr := SetWord(blocks[addr], w, b.value)];
      LogWrite(addr);
      got := {b.value};
      MappedFacts(sb, old(blocks), itab, blocks, itab, i, NDIRECT + w, b.value);
      ClaimsEntry(sb, old(blocks), itab, old(logged), blocks, logged, i, w, b.value);
      r := Some(b.value);
    }

    /** ... and of one that has just been allocated as block x. */
    method NewEntry(i: nat, w: nat, ghost blocks0: seq<Block>, ghost itab0: seq<Inode>, ghost logged0: set<nat>,
                    ghost x: nat)
      returns (r: Option<nat>, ghost got: set<nat>)
      requires FsOk(sb, blocks0, itab0) && i < |itab0| == |itab| && w < NINDIRECT && itab0[i].addrs[NDIRECT] == 0
      requires x < sb.size && !Used(sb, blocks0, x) && Lowest(FreeBlocks(sb, blocks0), {x})
      requires Valid() && blocks == AllocAt(sb, blocks0, x) && itab == SetAddr(itab0, i, NDIRECT, x)
      requires itab[i].addrs[NDIRECT] != 0 && Ptr(blocks, itab[i], NDIRECT + 1 + w) == 0
      requires Owned(blocks, itab) == Owned(blocks0, itab0) + {x} && logged == logged0 + {sb.BBlock(x), x}
      requires Tracks(sb, blocks0, logged0, blocks, logged)
      modifies this`blocks, this`logged
      ensures r.None? <==> |FreeBlocks(sb, blocks0)| < 2
      ensures r.None? ==> |blocks| == sb.size && FreeBlocks(sb, blocks) == {}
      ensures r.Some? ==>
                && Valid()
                && Mapped(sb, blocks0, itab0, blocks, itab, i, NDIRECT + w, r.value)
                && Claims(sb, blocks0, itab0, logged0, blocks, itab, logged, i, NDIRECT + w, got)
                && r.value in got && Tracks(sb, blocks0, logged0, blocks, logged)
    {
      SizesFit(sb, blocks0, itab0);
      hide BitmapIs, Disjoint, Used, AllocAt, FsOk, Ptr, Owned, PtrsExcept, Mapped, FreeBlocks, Lowest, Tracks;
      assert itab[i].addrs[NDIRECT] == x;
      assert Took(sb, blocks0, itab0, blocks, itab, {x}, 1);
      TookLeaves(sb, blocks0, itab0, blocks, itab, {x}, 1);
      hide Took, Claims;
      ghost var blocks1, logged1 := blocks, logged;
      r, got := AddEntry(i, w);
      if r.Some? {
        ClaimsBoth(sb, blocks0, itab0, logged0, blocks1, itab, logged1, blocks, logged, i, w, x, got);
        MappedBoth(sb, blocks0, itab0, i, w, x, r.value);
        ClaimsCount(sb, blocks1, itab, logged1, blocks, itab, logged, i, NDIRECT + w, got);
        TracksTwice(sb, blocks0, logged0, blocks1, logged1, blocks, logged);
        got := {x} + got;
      }
    }

    /** iupdate: the on-disk inode becomes a copy of the one in memory. */
    method Iupdate(i: nat)
      requires i < |itab| && |itab| == |dtab|
      modifies this`dtab, this`logged
      ensures dtab == old(dtab)[i := itab[i]] && logged == old(logged) + {sb.IBlock(i)}
    {
      dtab := dtab[i := itab[i]];
      LogWrite(sb.IBlock(i));
    }

    /** itrunc: frees exactly the blocks the inode owned, none of which is already free, and touches
        no other file. */
    method Itrunc(i: nat) returns (ok: bool)
      requires Valid() && i < |itab|
      modifies this`blocks, this`itab, this`dtab, this`logged
      ensures ok && Valid()
      ensures itab == old(itab)[i := RawInode(0, seq(NDIRECT + 1, _ => 0))] && dtab == old(dtab)[i := itab[i]]
      ensures Owned(blocks, itab) == Owned(old(blocks), old(itab)) - OwnedBy(old(blocks), old(itab)[i])
      ensures forall j, t :: 0 <= j < |itab| && 0 <= t < SLOTS ==>
                Ptr(blocks, itab[j], t) == if j == i then 0 else Ptr(old(blocks), old(itab)[j], t)
      ensures forall x :: sb.datastart <= x < sb.size ==> blocks[x] == old(blocks)[x]
      ensures forall j :: 0 <= j < |itab| && j != i ==> SameFile(old(blocks), blocks, itab[j])
      ensures Extent(blocks, itab[i], 0) && (NoHoles(old(blocks), old(itab)) ==> NoHoles(blocks, itab))
      ensures CallTracks(sb, i, old(blocks), old(logged), blocks, logged) && sb.IBlock(i) in logged
      ensures forall b :: b in logged ==> b in old(logged) || b == sb.IBlock(i) || sb.InBitmap(b)
    {
      hide BitmapIs, Used, Disjoint, Owned, Freed, Blocks.GetWord, FsOk, SameFile, NoHoles, Extent, Tracks,
           CallTracks;
      ghost var blocks0, itab0 := blocks, itab;
      TracksNone(sb, blocks, logged);
      SizesFit(sb, blocks, itab);
      TruncStart(sb, blocks, itab, i);
      ok := FreeDirect(i, blocks0, itab0);
      if !ok {
        return;
      }
      if itab[i].addrs[NDIRECT] != 0 {
        ghost var blocks1, logged1 := blocks, logged;
        ok := FreeIndirect(i, blocks0, itab0);
        if !ok {
          return;
        }
        FreesTwice(sb, old(blocks), old(logged), blocks1, logged1, blocks, logged);
        itab := itab[i := itab[i].(addrs := itab[i].addrs[NDIRECT := 0])];
      } else {
        TruncNoIndirect(sb, blocks0, itab0, i, NDIRECT, blocks);
      }
      itab := itab[i := itab[i].(size := 0)];
      TruncDone(sb, blocks0, itab0, i, blocks, itab);
      TracksInode(sb, i, old(blocks), old(logged), blocks, logged);
      Iupdate(i);
      ok := true;
      assert itab[i].addrs == seq(NDIRECT + 1, _ => 0);
      EmptyHasNoHoles(blocks, itab[i]);
      TruncOthers(sb, blocks0, itab0, blocks, itab, i);
      if NoHoles(blocks0, itab0) {
        HolesKept(blocks0, itab0, blocks, itab, i);
      }
    }

    method FreeDirect(i: nat, ghost blocks0: seq<Block>, ghost itab0: seq<Inode>) returns (ok: bool)
      requires Truncating(sb, blocks0, itab0, i, 0, blocks) && itab == itab0
      modifies this`blocks, this`itab, this`logged
      ensures ok
      ensures Truncating(sb, blocks0, itab0, i, NDIRECT, blocks)
      ensures |itab| == |itab0| && itab == itab0[i := itab[i]] && itab[i].size == itab0[i].size
      ensures forall s :: 0 <= s <= NDIRECT ==> itab[i].addrs[s] == if s < NDIRECT then 0 else itab0[i].addrs[s]
      ensures FreesTracked(sb, old(blocks), old(logged), blocks, logged)
    {
      hide BitmapIs, Used, Disjoint, Owned, Freed, FsOk, FreeAt, FreesTracked;
      FreesNone(sb, blocks, logged);
      for k := 0 to NDIRECT
        invariant FreesTracked(sb, old(blocks), old(logged), blocks, logged)
        invariant Truncating(sb, blocks0, itab0, i, k, blocks)
        invariant |itab| == |itab0| && itab == itab0[i := itab[i]] && itab[i].size == itab0[i].size
        invariant forall s :: 0 <= s <= NDIRECT ==> itab[i].addrs[s] == if s < k then 0 else itab0[i].addrs[s]
      {
        TruncStep(sb, blocks0, itab0, i, k, blocks);
        if itab[i].addrs[k] != 0 {
          SizesFit(sb, blocks0, itab0);
          FreesOne(sb, old(blocks), old(logged), blocks, logged, itab[i].addrs[k]);
          ok := Bfree(itab[i].addrs[k]);
          if !ok {
            return;
          }
          itab := itab[i := itab[i].(addrs := itab[i].addrs[k := 0])];
        }
      }
      ok := true;
    }

    method FreeIndirect(i: nat, ghost blocks0: seq<Block>, ghost itab0: seq<Inode>) returns (ok: bool)
      requires Truncating(sb, blocks0, itab0, i, NDIRECT, blocks) && i < |itab|
      requires itab[i].addrs[NDIRECT] == itab0[i].addrs[NDIRECT] != 0
      modifies this`blocks, this`logged
      ensures ok && Truncating(sb, blocks0, itab0, i, SLOTS, blocks)
      ensures FreesTracked(sb, old(blocks), old(logged), blocks, logged)
    {
      hide BitmapIs, Used, Disjoint, Owned, Freed, FsOk, FreeAt, Blocks.GetWord, FreesTracked;
      FreesNone(sb, blocks, logged);
      var x := itab[i].addrs[NDIRECT];
      IndirectInRange(sb, blocks0, itab0, i);
      SizesFit(sb, blocks0, itab0);
      var a := blocks[x];
      for j := 0 to NINDIRECT
        invariant Truncating(sb, blocks0, itab0, i, NDIRECT + j, blocks)
        invariant FreesTracked(sb, old(blocks), old(logged), blocks, logged)
      {
        TruncStep(sb, blocks0, itab0, i, NDIRECT + j, blocks);
        var p := GetWord(a, j);
        assert p == Ptr(blocks0, itab0[i], TruncSlot(NDIRECT + j));
        if p != 0 {
          FreesOne(sb, old(blocks), old(logged), blocks, logged, p);
          ok := Bfree(p);
          if !ok {
            return;
          }
        }
      }
      TruncStep(sb, blocks0, itab0, i, MAXFILE, blocks);
      FreesOne(sb, old(blocks), old(logged), blocks, logged, x);
      ok := Bfree(x);
    }

    /** readi on a plain file without holes: the requested slice, clipped to the size; it never
        allocates. None is the result -1. */
    method Readi(i: nat, off: nat, n: nat) returns (r: Option<seq<byte>>)
      requires Valid() && i < |itab| && off < WORD_LIMIT && n < WORD_LIMIT
      requires itab[i].size <= MAXSIZE && Extent(blocks, itab[i], itab[i].size)
      modifies this`blocks, this`itab, this`logged
      ensures blocks == old(blocks) && itab == old(itab) && logged == old(logged)
      ensures r.None? <==> off > itab[i].size || off + n >= WORD_LIMIT
      ensures r.Some? ==>
                r.value == Contents(blocks, itab[i])[off..if off + n > itab[i].size then itab[i].size else off + n]
    {
      hide FsOk, Ptr, Extent;
      var size := itab[i].size;
      if off > size || off + n >= WORD_LIMIT {
        return None;
      }
      var n' := if off + n > size then size - off else n;
      ghost var file := Contents(blocks, itab[i]);
      var tot, dst := 0, [];
      while tot < n'
        invariant Valid() && blocks == old(blocks) && itab == old(itab) && logged == old(logged)
        invariant tot <= n' && dst == file[off..off + tot]
      {
        var m := Span(off + tot, n' - tot);
        var chunk := ReadBlock(i, off + tot, m);
        dst := dst + chunk;
        tot := tot + m;
      }
      r := Some(dst);
    }

    /** One turn of readi's loop. */
    method ReadBlock(i: nat, at: nat, m: nat) returns (chunk: seq<byte>)
      requires Valid() && i < |itab| && at % BSIZE + m <= BSIZE && 0 < m
      requires itab[i].size <= MAXSIZE && at + m <= itab[i].size && Extent(blocks, itab[i], itab[i].size)
      modifies this`blocks, this`itab, this`logged
      ensures blocks == old(blocks) && itab == old(itab) && logged == old(logged)
      ensures chunk == Contents(blocks, itab[i])[at..at + m]
    {
      hide FsOk, Mapped, Ptr;
      BlockBelow(at, itab[i].size);
      assert Ptr(blocks, itab[i], Slot(at / BSIZE)) != 0;
      var p, got := Bmap(i, at / BSIZE);
      AlreadyMapped(sb, old(blocks), old(itab), blocks, itab, i, at, p.value, old(itab)[i].size);
      SliceOfBlock(blocks, itab[i], at, m, p.value);
      chunk := blocks[p.value][at % BSIZE..at % BSIZE + m];
    }

    /** One turn of writei's loop: bmap, memmove, log_write. False is a panic in bmap. */
    method WriteBlock(i: nat, at: nat, chunk: seq<byte>)
      returns (ok: bool, ghost blocks1: seq<Block>, ghost logged1: set<nat>, ghost p: nat, ghost got: set<nat>)
      requires Valid() && i < |itab| && at < MAXSIZE && at % BSIZE + |chunk| <= BSIZE
      modifies this`blocks, this`itab, this`logged
      ensures !ok <==> |FreeBlocks(sb, old(blocks))| < BmapNeeds(old(blocks), old(itab)[i], at / BSIZE)
      ensures !ok ==> |blocks| == sb.size && FreeBlocks(sb, blocks) == {}
      ensures ok ==>
                && Mapped(sb, old(blocks), old(itab), blocks1, itab, i, at / BSIZE, p)
                && p < |blocks1| && blocks == blocks1[p := Patch(blocks1[p], at % BSIZE, chunk)]
                && |itab| == |old(itab)|
                && Claims(sb, old(blocks), old(itab), old(logged), blocks1, itab, logged1, i, at / BSIZE, got)
                && (got != {} ==> p in got) && logged == logged1 + {p}
                && Tracks(sb, old(blocks), old(logged), blocks, logged)
    {
      hide FsOk, Ptr, Owned, Patch, Claims, FreeBlocks, BmapNeeds, Slot, Tracks;
      var r;
      r, got := Bmap(i, at / BSIZE);
      blocks1, logged1, p := blocks, logged, 0;
      if r.None? {
        ok := false;
        return;
      }
      MappedFacts(sb, old(blocks), old(itab), blocks, itab, i, at / BSIZE, r.value);
      p := r.value;
      TracksData(sb, old(blocks), old(logged), blocks, itab, logged, p, Patch(blocks[p], at % BSIZE, chunk));
      blocks := blocks[r.value := Patch(blocks[r.value], at % BSIZE, chunk)];
      LogWrite(r.value);
      ok := true;
    }

    /** writei on a plain file without holes. Failed is the result -1, with nothing changed. Panicked happens
        exactly if the disk has too few free blocks, and leaves none. Otherwise the file reads as before with
        `src` in place at `off`, still has no holes, no other file changed, and the inode on disk is again a copy
        of the one in memory although iupdate is called only when the file grew; the blocks allocated are the
        lowest free ones and the blocks logged are exactly WriteLog. */
    method Writei(i: nat, off: nat, src: seq<byte>) returns (r: IoResult, ghost got: set<nat>)
      requires Valid() && i < |itab| && off < WORD_LIMIT && |src| < WORD_LIMIT
      requires itab[i].size <= MAXSIZE && Extent(blocks, itab[i], itab[i].size)
      modifies this`blocks, this`itab, this`dtab, this`logged
      ensures r.Failed? <==> off > old(itab)[i].size || off + |src| >= WORD_LIMIT || off + |src| > MAXSIZE
      ensures r.Failed? ==> blocks == old(blocks) && itab == old(itab) && dtab == old(dtab) && logged == old(logged)
      ensures !r.Failed? ==> (r.Panicked? <==> |FreeBlocks(sb, old(blocks))| < Needs(old(itab)[i].size, off + |src|))
      ensures r.Panicked? ==> |blocks| == sb.size && FreeBlocks(sb, blocks) == {}
      ensures r.Done? ==>
                && Valid() && |itab| == |old(itab)| && itab == old(itab)[i := itab[i]]
                && itab[i].size == Max(old(itab)[i].size, off + |src|) && itab[i].size <= MAXSIZE
                && Extent(blocks, itab[i], itab[i].size)
                && Contents(blocks, itab[i]) == Overwrite(Contents(old(blocks), old(itab)[i]), off, src)
                && (forall j :: 0 <= j < |itab| && j != i ==> SameFile(old(blocks), blocks, itab[j]))
                && dtab == old(dtab)[i := dtab[i]] && (old(dtab)[i] == old(itab)[i] ==> dtab[i] == itab[i])
      ensures r.Done? ==>
                && LastTouched(off, |src|) <= MAXFILE && Lowest(FreeBlocks(sb, old(blocks)), got)
                && |got| == Needs(old(itab)[i].size, off + |src|)
                && Owned(blocks, itab) == Owned(old(blocks), old(itab)) + got
                && logged == old(logged) + WriteLog(sb, old(blocks), old(itab)[i], i, off, |src|, got)
      ensures r.Done? ==> CallTracks(sb, i, old(blocks), old(logged), blocks, logged)
      ensures r.Done? && dtab != old(dtab) ==> sb.IBlock(i) in logged
      ensures r.Done? && NoHoles(old(blocks), old(itab)) ==> NoHoles(blocks, itab)
    {
      hide FsOk, Ptr, Owned, SameFile, ByteAt, Extent, Contents, Overwrite, LoopLog, NoHoles, FreeBlocks, Needs,
           Lowest, LastTouched, Tracks, CallTracks;
      var n := |src|;
      got := {};
      if off > itab[i].size || off + n >= WORD_LIMIT {
        return Failed, got;
      }
      if off + n > MAXSIZE {
        return Failed, got;
      }
      WritingStart(sb, blocks, itab, i, off, src);
      var ok;
      ok, got := WriteLoop(i, off, src);
      if !ok {
        return Panicked, got;
      }
      WritingContents(sb, old(blocks), old(itab), blocks, itab, i, off, src,
                      itab[i].(size := Max(old(itab)[i].size, off + n)));
      AllocatedAll(sb, old(blocks), old(itab), old(logged), blocks, itab, logged, i, off, n, got,
                   itab[i].(size := Max(old(itab)[i].size, off + n)));
      TracksInode(sb, i, old(blocks), old(logged), blocks, logged);
      if n > 0 && off + n > itab[i].size {
        itab := itab[i := itab[i].(size := off + n)];
        Iupdate(i);
      }
      if NoHoles(old(blocks), old(itab)) {
        HolesKept(old(blocks), old(itab), blocks, itab, i);
      }
      r := Done;
    }

    /** writei's loop. */
    method WriteLoop(i: nat, off: nat, src: seq<byte>) returns (ok: bool, ghost got: set<nat>)
      requires Valid() && Writing(sb, blocks, itab, blocks, itab, i, off, src, 0)
      modifies this`blocks, this`itab, this`logged
      ensures i < |old(itab)|
      ensures !ok <==> |FreeBlocks(sb, old(blocks))| < Needs(old(itab)[i].size, off + |src|)
      ensures !ok ==> |blocks| == sb.size && FreeBlocks(sb, blocks) == {}
      ensures ok ==>
                && Writing(sb, old(blocks), old(itab), blocks, itab, i, off, src, |src|)
                && Allocating(sb, old(blocks), old(itab), old(logged), blocks, itab, logged, i, off, |src|, got)
                && Tracks(sb, old(blocks), old(logged), blocks, logged)
    {
      hide FsOk, Writing, Allocating, Span, Aligned, FreeBlocks, Needs, Tracks;
      TracksNone(sb, blocks, logged);
      var n := |src|;
      ghost var blocks0, itab0, logged0 := blocks, itab, logged;
      var tot := 0;
      got := {};
      WritingFacts(sb, blocks, itab, blocks, itab, i, off, src, 0);
      AllocatingStart(sb, blocks, itab, logged, i, off, src);
      while tot < n
        invariant tot <= n && |itab| == |dtab| <= sb.ninodes
        invariant Writing(sb, blocks0, itab0, blocks, itab, i, off, src, tot)
        invariant tot > 0 && tot < n ==> Aligned(off + tot)
        invariant |itab| == |itab0| && Allocating(sb, blocks0, itab0, logged0, blocks, itab, logged, i, off, tot, got)
        invariant Tracks(sb, blocks0, logged0, blocks, logged)
      {
        var m := Span(off + tot, n - tot);
        ghost var blocks1, logged1 := blocks, logged;
        ok, got := WriteTurn(i, off, src, tot, m, blocks0, itab0, logged0, got);
        NeedsGrows(itab0[i].size, off + tot + m, off + n);
        if !ok {
          return;
        }
        TracksTwice(sb, blocks0, logged0, blocks1, logged1, blocks, logged);
        tot := tot + m;
      }
      ok := true;
      AllocatingEnough(sb, blocks0, itab0, logged0, blocks, itab, logged, i, off, n, got);
    }

    method WriteTurn(i: nat, off: nat, src: seq<byte>, tot: nat, m: nat,
                     ghost blocks0: seq<Block>, ghost itab0: seq<Inode>, ghost logged0: set<nat>, ghost got: set<nat>)
      returns (ok: bool, ghost got': set<nat>)
      requires |itab| == |dtab| <= sb.ninodes && Writing(sb, blocks0, itab0, blocks, itab, i, off, src, tot)
      requires 0 < m && tot + m <= |src| && (off + tot) % BSIZE + m <= BSIZE && (tot > 0 ==> Aligned(off + tot))
      requires i < |itab0| == |itab| && Allocating(sb, blocks0, itab0, logged0, blocks, itab, logged, i, off, tot, got)
      requires sb.Ok() && |blocks0| == sb.size
      modifies this`blocks, this`itab, this`logged
      ensures !ok ==> |FreeBlocks(sb, blocks0)| < Needs(itab0[i].size, off + tot + m)
      ensures !ok ==> |blocks| == sb.size && FreeBlocks(sb, blocks) == {}
      ensures ok ==>
                && |itab| == |itab0|
                && Writing(sb, blocks0, itab0, blocks, itab, i, off, src, tot + m)
                && Allocating(sb, blocks0, itab0, logged0, blocks, itab, logged, i, off, tot + m, got')
                && Tracks(sb, old(blocks), old(logged), blocks, logged)
    {
      hide FsOk, Mapped, Ptr, Patch, Writing, Allocating, Aligned, Slot, Claims, FreeBlocks, Needs, BmapNeeds, Tracks;
      WritingFacts(sb, blocks0, itab0, blocks, itab, i, off, src, tot);
      ghost var blocks', itab', logged' := blocks, itab, logged;
      BlockBelow(off + tot, MAXSIZE);
      TurnNeeds(sb, blocks0, itab0, logged0, blocks, itab, logged, i, off, tot, m, got);
      ghost var blocks1, logged1, p, more;
      ok, blocks1, logged1, p, more := WriteBlock(i, off + tot, src[tot..tot + m]);
      got' := got + more;
      if ok {
        WritingStep(sb, blocks0, itab0, blocks', itab', i, off, src, tot, m, blocks1, itab, p);
        MappedFacts(sb, blocks', itab', blocks1, itab, i, (off + tot) / BSIZE, p);
        AllocatingStep(sb, blocks0, itab0, logged0, blocks', itab', logged', blocks1, itab, logged1, i, off, tot, m,
                       got, more, p, Patch(blocks1[p], (off + tot) % BSIZE, src[tot..tot + m]));
      }
    }

    /** begin_op: a new call has logged nothing yet. */
    method BeginOp()
      modifies this`logged
      ensures logged == {}
    {
      logged := {};
    }
  }

  lemma IndirectInRange(sb: Super, blocks: seq<Block>, itab: seq<Inode>, i: nat)
    requires FsOk(sb, blocks, itab) && i < |itab|
    ensures forall s: nat :: s < SLOTS && Ptr(blocks, itab[i], s) != 0 ==> InRange(sb, Ptr(blocks, itab[i], s))
    ensures itab[i].addrs[NDIRECT] != 0 ==> InRange(sb, itab[i].addrs[NDIRECT])
  {
    assert itab[i].addrs[NDIRECT] == Ptr(blocks, itab[i], NDIRECT);
  }

  lemma TruncStart(sb: Super, blocks: seq<Block>, itab: seq<Inode>, i: nat)
    requires FsOk(sb, blocks, itab) && i < |itab|
    ensures Truncating(sb, blocks, itab, i, 0, blocks)
  {
    assert Owned(blocks, itab) - Freed(blocks, itab[i], 0) == Owned(blocks, itab);
  }

  lemma {:induction false} TruncNoIndirect(sb: Super, blocks0: seq<Block>, itab0: seq<Inode>, i: nat, n: nat,
                                           blocks: seq<Block>)
    requires Truncating(sb, blocks0, itab0, i, n, blocks) && NDIRECT <= n && itab0[i].addrs[NDIRECT] == 0
    ensures Truncating(sb, blocks0, itab0, i, SLOTS, blocks)
    decreases SLOTS - n
  {
    hide BitmapIs, Owned, Freed;
    if n < SLOTS {
      TruncStep(sb, blocks0, itab0, i, n, blocks);
      TruncNoIndirect(sb, blocks0, itab0, i, n + 1, blocks);
    }
  }

  lemma SliceOfBlock(blocks: seq<Block>, ip: Inode, at: nat, m: nat, p: nat)
    requires ip.size <= MAXSIZE && at + m <= ip.size && at % BSIZE + m <= BSIZE && at < MAXSIZE
    requires p == Ptr(blocks, ip, Slot(at / BSIZE)) && p < |blocks|
    ensures Contents(blocks, ip)[at..at + m] == blocks[p][at % BSIZE..at % BSIZE + m]
  {
    hide Ptr;
    forall k | at <= k < at + m
      ensures ByteAt(blocks, ip, k) == blocks[p][at % BSIZE + (k - at)]
    {
      SameBlock(at, k - at);
    }
  }

  lemma SameBlock(at: nat, k: nat)
    requires at % BSIZE + k < BSIZE
    ensures (at + k) / BSIZE == at / BSIZE && (at + k) % BSIZE == at % BSIZE + k
  {
  }

  lemma WritingFacts(sb: Super, blocks0: seq<Block>, itab0: seq<Inode>, blocks: seq<Block>, itab: seq<Inode>,
                     i: nat, off: nat, src: seq<byte>, tot: nat)
    requires Writing(sb, blocks0, itab0, blocks, itab, i, off, src, tot)
    ensures FsOk(sb, blocks, itab) && i < |itab0| == |itab| && tot <= |src| && off + |src| <= MAXSIZE
  {
  }

  lemma WritingStart(sb: Super, blocks: seq<Block>, itab: seq<Inode>, i: nat, off: nat, src: seq<byte>)
    requires FsOk(sb, blocks, itab) && i < |itab| && off <= itab[i].size <= MAXSIZE && off + |src| <= MAXSIZE
    requires Extent(blocks, itab[i], itab[i].size)
    ensures Writing(sb, blocks, itab, blocks, itab, i, off, src, 0)
  {
    hide Ptr, FsOk;
  }

  lemma InBitmapBlock(sb: Super, b: nat, bi: nat)
    requires b % BPB == 0 && bi < BPB
    ensures sb.BBlock(b + bi) == sb.BBlock(b) && BitIndex(b + bi) == bi
  {
    assert (b + bi) / BPB == b / BPB;
  }
}
