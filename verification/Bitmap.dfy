/** The free-block bitmap: bit b % 8 of byte (b % BPB) / 8 of bitmap block b / BPB. */
module Bitmap {
  import opened Blocks

  const BPB: nat := 8 * BSIZE

  function Pow2(k: nat): (r: nat)
    ensures r >= 1
  {
    if k == 0 then 1 else 2 * Pow2(k - 1)
  }

  predicate Bit(x: nat, k: nat) {
    if k == 0 then x % 2 == 1 else Bit(x / 2, k - 1)
  }

  /** x |= 1 << k on a clear bit. */
  lemma {:induction false} SetBit(x: nat, k: nat, j: nat)
    requires !Bit(x, k)
    ensures Bit(x + Pow2(k), j) == (j == k || Bit(x, j))
    decreases k
  {
    if k > 0 {
      assert (x + 2 * Pow2(k - 1)) / 2 == x / 2 + Pow2(k - 1);
      if j > 0 {
        SetBit(x / 2, k - 1, j - 1);
      }
    } else if j > 0 {
      assert (x + 1) / 2 == x / 2;
    }
  }

  /** x &= ~(1 << k) on a set bit. */
  lemma {:induction false} ClearBit(x: nat, k: nat, j: nat)
    requires Bit(x, k)
    ensures x >= Pow2(k) && Bit(x - Pow2(k), j) == (j != k && Bit(x, j))
    decreases k
  {
    if k > 0 {
      ClearBit(x / 2, k - 1, if j > 0 then j - 1 else k - 1);
      assert (x - 2 * Pow2(k - 1)) / 2 == x / 2 - Pow2(k - 1);
    } else if j > 0 {
      assert (x - 1) / 2 == x / 2;
    }
  }

  /** A byte with a clear bit can take it. */
  lemma {:induction false} ByteRoom(x: nat, k: nat, n: nat)
    requires !Bit(x, k) && k < n && x < Pow2(n)
    ensures x + Pow2(k) < Pow2(n)
    decreases k
  {
    var p, h := Pow2(n - 1), x / 2;
    assert Pow2(n) == 2 * p && h < p;
    if k > 0 {
      ByteRoom(h, k - 1, n - 1);
      assert h + Pow2(k - 1) < p;
    }
  }

  lemma Pow8()
    ensures Pow2(8) == 256
  {
    assert Pow2(4) == 16;
  }

  predicate BlockBit(bm: Block, bi: nat)
    requires bi < BPB
  {
    Bit(bm[bi / 8], bi % 8)
  }

  /** data[bi / 8] |= 1 << (bi % 8), for a clear bit. */
  function MarkUsed(bm: Block, bi: nat): (r: Block)
    requires bi < BPB
  {
    bm[bi / 8 := (bm[bi / 8] + Pow2(bi % 8)) % 256]
  }

  /** data[bi / 8] &= ~(1 << (bi % 8)), for a set bit. */
  function MarkFree(bm: Block, bi: nat): (r: Block)
    requires bi < BPB
  {
    bm[bi / 8 := (bm[bi / 8] - Pow2(bi % 8)) % 256]
  }

  lemma MarkUsedBits(bm: Block, bi: nat)
    requires bi < BPB && !BlockBit(bm, bi)
    ensures forall j: nat :: j < BPB ==> BlockBit(MarkUsed(bm, bi), j) == (j == bi || BlockBit(bm, j))
  {
    Pow8();
    ByteRoom(bm[bi / 8], bi % 8, 8);
    var r := MarkUsed(bm, bi);
    forall j: nat | j < BPB
      ensures BlockBit(r, j) == (j == bi || BlockBit(bm, j))
    {
      SetBit(bm[bi / 8], bi % 8, j % 8);
    }
  }

  lemma MarkFreeBits(bm: Block, bi: nat)
    requires bi < BPB && BlockBit(bm, bi)
    ensures forall j: nat :: j < BPB ==> BlockBit(MarkFree(bm, bi), j) == (j != bi && BlockBit(bm, j))
  {
    ClearBit(bm[bi / 8], bi % 8, 0);
    var r := MarkFree(bm, bi);
    forall j: nat | j < BPB
      ensures BlockBit(r, j) == (j != bi && BlockBit(bm, j))
    {
      ClearBit(bm[bi / 8], bi % 8, j % 8);
    }
  }
}
