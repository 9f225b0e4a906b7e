/** The user-level allocator: a circular, address-ordered free list with coalescing. Addresses and
    sizes are in units of the header; a block is its header address and its size, header included. */
module Umalloc {
  import opened Basics

  datatype Blk = Blk(addr: nat, size: nat) {
    function End(): nat { addr + size }
  }

  /** The free list in address order, starting at the empty block `base`. Neighbours do not overlap,
      and outside positions lo..hi a gap separates them: they are not even adjacent. */
  ghost predicate OrderedBut(bs: seq<Blk>, base: nat, lo: nat, hi: nat) {
    && |bs| >= 1 && bs[0] == Blk(base, 0)
    && (forall i :: 1 <= i < |bs| ==> bs[i].size >= 1)
    && (forall i :: 0 <= i < |bs| - 1 ==>
          && bs[i].addr < bs[i + 1].addr && bs[i].End() <= bs[i + 1].addr
          && (i < lo || i >= hi ==> bs[i].End() < bs[i + 1].addr))
  }

  /** Address-ordered, disjoint, and no two free blocks adjacent. */
  ghost predicate Ordered(bs: seq<Blk>, base: nat) {
    OrderedBut(bs, base, 0, 0)
  }

  lemma {:induction false} Ascending(bs: seq<Blk>, base: nat, lo: nat, hi: nat, i: nat, j: nat)
    requires OrderedBut(bs, base, lo, hi) && i < j < |bs|
    ensures bs[i].addr < bs[j].addr && bs[i].End() <= bs[j].addr
    decreases j
  {
    if i + 1 < j {
      Ascending(bs, base, lo, hi, i, j - 1);
      assert bs[j - 1].addr < bs[j - 1 + 1].addr;
    }
  }

  lemma AllAscending(bs: seq<Blk>, base: nat, lo: nat, hi: nat)
    requires OrderedBut(bs, base, lo, hi)
    ensures forall i, j :: 0 <= i < j < |bs| ==> bs[i].addr < bs[j].addr && bs[i].End() <= bs[j].addr
  {
    forall i, j | 0 <= i < j < |bs|
      ensures bs[i].addr < bs[j].addr && bs[i].End() <= bs[j].addr
    {
      Ascending(bs, base, lo, hi, i, j);
    }
  }

  /** Some free block has its header at a. */
  ghost predicate OnList(bs: seq<Blk>, a: int) {
    exists i :: 0 <= i < |bs| && bs[i].addr == a
  }

  /** A unit that some free block covers. */
  ghost predicate FreeUnit(bs: seq<Blk>, u: int) {
    exists i :: 0 <= i < |bs| && bs[i].addr <= u < bs[i].End()
  }

  function NextIndex(n: nat, i: nat): (k: nat)
    requires i < n
    ensures k < n
  {
    if i + 1 < n then i + 1 else 0
  }

  /** The header fields in memory form the circular list `bs`. */
  ghost predicate Linked(bs: seq<Blk>, ptr: map<int, int>, size: map<int, int>) {
    forall i :: 0 <= i < |bs| ==> LinkAt(bs, ptr, size, i)
  }

  ghost predicate LinkAt(bs: seq<Blk>, ptr: map<int, int>, size: map<int, int>, i: nat)
    requires i < |bs|
  {
    && bs[i].addr in ptr && bs[i].addr in size
    && ptr[bs[i].addr] == bs[NextIndex(|bs|, i)].addr
    && size[bs[i].addr] == bs[i].size
  }

  // ---- inserting a block ----

  /** A block that fits between list positions j and j + 1. */
  ghost predicate Fits(bs: seq<Blk>, j: nat, b: Blk) {
    && j < |bs| && b.size >= 1
    && bs[j].End() <= b.addr && bs[j].addr < b.addr
    && (j + 1 < |bs| ==> b.End() <= bs[j + 1].addr)
  }

  function Plain(bs: seq<Blk>, j: nat, b: Blk): (r: seq<Blk>)
    requires j < |bs|
  {
    bs[..j + 1] + [b] + bs[j + 1..]
  }

  predicate Touching(bs: seq<Blk>, k: nat) {
    k + 1 < |bs| && bs[k].End() == bs[k + 1].addr
  }

  /** Blocks k and k + 1 become one if they touch. */
  function MergeAt(bs: seq<Blk>, k: nat): (r: seq<Blk>) {
    if Touching(bs, k) then bs[..k] + [Blk(bs[k].addr, bs[k].size + bs[k + 1].size)] + bs[k + 2..] else bs
  }

  /** The list after free() of block b at position j: merged with the neighbours it touches. */
  function Insert(bs: seq<Blk>, j: nat, b: Blk): (r: seq<Blk>)
    requires j < |bs|
  {
    MergeAt(MergeAt(Plain(bs, j, b), j + 1), j)
  }

  lemma PlainIndex(bs: seq<Blk>, j: nat, b: Blk, k: nat)
    requires j < |bs| && k <= |bs|
    ensures |Plain(bs, j, b)| == |bs| + 1
    ensures Plain(bs, j, b)[k] == if k <= j then bs[k] else if k == j + 1 then b else bs[k - 1]
  {
  }

  lemma PlainOrdered(bs: seq<Blk>, base: nat, j: nat, b: Blk)
    requires Ordered(bs, base) && Fits(bs, j, b)
    ensures OrderedBut(Plain(bs, j, b), base, j, j + 2)
  {
    var r := Plain(bs, j, b);
    forall i | 0 <= i < |r| - 1
      ensures r[i].addr < r[i + 1].addr && r[i].End() <= r[i + 1].addr
      ensures i < j || i >= j + 2 ==> r[i].End() < r[i + 1].addr
    {
      if i < j {
        assert r[i] == bs[i] && r[i + 1] == bs[i + 1];
      } else if i >= j + 2 {
        assert r[i] == bs[i - 1] && r[i + 1] == bs[i - 1 + 1];
      }
    }
  }

  lemma MergeEntries(bs: seq<Blk>, k: nat)
    ensures !Touching(bs, k) ==> MergeAt(bs, k) == bs
    ensures Touching(bs, k) ==>
              var r := MergeAt(bs, k);
              && |r| == |bs| - 1 && r[k] == Blk(bs[k].addr, bs[k].size + bs[k + 1].size)
              && (forall i :: 0 <= i < k ==> r[i] == bs[i])
              && (forall i :: k < i < |r| ==> r[i] == bs[i + 1])
  {
  }

  lemma MergeNeighbours(bs: seq<Blk>, base: nat, lo: nat, k: nat, i: nat)
    requires OrderedBut(bs, base, lo, k + 1) && lo <= k && Touching(bs, k) && i + 2 < |bs|
    ensures var r := MergeAt(bs, k);
            && r[i].addr < r[i + 1].addr && r[i].End() <= r[i + 1].addr
            && (i < lo || i >= k ==> r[i].End() < r[i + 1].addr)
  {
    hide MergeAt;
    MergeEntries(bs, k);
    var r := MergeAt(bs, k);
    if i < k {
      assert r[i] == bs[i] && r[i + 1].addr == bs[i + 1].addr;
    } else {
      assert r[i].addr <= bs[i + 1].addr && r[i].End() == bs[i + 1].End() && r[i + 1] == bs[i + 1 + 1];
    }
  }

  lemma MergeOrdered(bs: seq<Blk>, base: nat, lo: nat, k: nat)
    requires OrderedBut(bs, base, lo, k + 1) && lo <= k
    ensures OrderedBut(MergeAt(bs, k), base, lo, k)
  {
    hide MergeAt;
    var r := MergeAt(bs, k);
    if Touching(bs, k) {
      MergeEntries(bs, k);
      forall i | 0 <= i < |r| - 1
        ensures r[i].addr < r[i + 1].addr && r[i].End() <= r[i + 1].addr
        ensures i < lo || i >= k ==> r[i].End() < r[i + 1].addr
      {
        MergeNeighbours(bs, base, lo, k, i);
      }
    } else {
      MergeEntries(bs, k);
    }
  }

  lemma InsertOrdered(bs: seq<Blk>, base: nat, j: nat, b: Blk)
    requires Ordered(bs, base) && Fits(bs, j, b)
    ensures Ordered(Insert(bs, j, b), base)
  {
    hide MergeAt, Plain;
    PlainOrdered(bs, base, j, b);
    MergeOrdered(Plain(bs, j, b), base, j, j + 1);
    MergeOrdered(MergeAt(Plain(bs, j, b), j + 1), base, j, j);
  }

  lemma PlainUnits(bs: seq<Blk>, j: nat, b: Blk, u: int)
    requires j < |bs|
    ensures FreeUnit(Plain(bs, j, b), u) <==> FreeUnit(bs, u) || b.addr <= u < b.End()
  {
    var r := Plain(bs, j, b);
    if i :| 0 <= i < |bs| && bs[i].addr <= u < bs[i].End() {
      assert r[if i <= j then i else i + 1] == bs[i];
    }
    assert r[j + 1] == b;
    if k :| 0 <= k < |r| && r[k].addr <= u < r[k].End() {
      assert k != j + 1 ==> r[k] == bs[if k <= j then k else k - 1];
    }
  }

  lemma MergeIndex(bs: seq<Blk>, k: nat, i: nat)
    requires Touching(bs, k) && i < |bs| - 1
    ensures |MergeAt(bs, k)| == |bs| - 1
    ensures MergeAt(bs, k)[i] == if i < k then bs[i]
            else if i == k then Blk(bs[k].addr, bs[k].size + bs[k + 1].size) else bs[i + 1]
  {
  }

  lemma MergeUnits(bs: seq<Blk>, k: nat, u: int)
    ensures FreeUnit(MergeAt(bs, k), u) <==> FreeUnit(bs, u)
  {
    if Touching(bs, k) {
      var r := MergeAt(bs, k);
      MergeIndex(bs, k, k);
      hide MergeAt;
      if i :| 0 <= i < |bs| && bs[i].addr <= u < bs[i].End() {
        var m := if i <= k then i else i - 1;
        MergeIndex(bs, k, m);
        assert r[m].addr <= u < r[m].End();
      }
      if i :| 0 <= i < |r| && r[i].addr <= u < r[i].End() {
        MergeIndex(bs, k, i);
        var m := if i < k || (i == k && u < bs[k].End()) then i else i + 1;
        assert bs[m].addr <= u < bs[m].End();
      }
    } else {
      MergeSame(bs, k);
    }
  }

  /** Freeing adds exactly the block's units to the free ones. */
  lemma InsertUnits(bs: seq<Blk>, j: nat, b: Blk, u: int)
    requires j < |bs|
    ensures FreeUnit(Insert(bs, j, b), u) <==> FreeUnit(bs, u) || b.addr <= u < b.End()
  {
    hide MergeAt, Plain, FreeUnit;
    PlainUnits(bs, j, b, u);
    MergeUnits(Plain(bs, j, b), j + 1, u);
    MergeUnits(MergeAt(Plain(bs, j, b), j + 1), j, u);
  }

  lemma PlainLinked(bs: seq<Blk>, base: nat, j: nat, b: Blk, ptr: map<int, int>, size: map<int, int>)
    requires Ordered(bs, base) && Fits(bs, j, b) && Linked(bs, ptr, size)
    ensures LinkAt(bs, ptr, size, j)
    ensures Linked(Plain(bs, j, b), ptr[b.addr := ptr[bs[j].addr]][bs[j].addr := b.addr], size[b.addr := b.size])
  {
    assert LinkAt(bs, ptr, size, j);
    hide Ordered, Fits;
    var r, ptr', size' := Plain(bs, j, b), ptr[b.addr := ptr[bs[j].addr]][bs[j].addr := b.addr], size[b.addr := b.size];
    forall k | 0 <= k < |r|
      ensures LinkAt(r, ptr', size', k)
    {
      if k != j + 1 {
        assert LinkAt(bs, ptr, size, if k <= j then k else k - 1);
      }
      PlainLinkAt(bs, base, j, b, ptr, size, k);
    }
  }

  lemma PlainAddrs(bs: seq<Blk>, base: nat, j: nat, b: Blk, k: nat)
    requires Ordered(bs, base) && Fits(bs, j, b) && k <= |bs|
    ensures |Plain(bs, j, b)| == |bs| + 1
    ensures k != j ==> Plain(bs, j, b)[k].addr != bs[j].addr
    ensures k != j + 1 ==> Plain(bs, j, b)[k].addr != b.addr
  {
    hide Plain, OrderedBut;
    PlainOrdered(bs, base, j, b);
    PlainIndex(bs, j, b, j);
    PlainIndex(bs, j, b, j + 1);
    var r := Plain(bs, j, b);
    if k < j {
      Ascending(r, base, j, j + 2, k, j);
      Ascending(r, base, j, j + 2, k, j + 1);
    } else if k > j + 1 {
      Ascending(r, base, j, j + 2, j, k);
      Ascending(r, base, j, j + 2, j + 1, k);
    } else {
      Ascending(r, base, j, j + 2, j, j + 1);
    }
  }

  lemma PlainLinkAt(bs: seq<Blk>, base: nat, j: nat, b: Blk, ptr: map<int, int>, size: map<int, int>, k: nat)
    requires Ordered(bs, base) && Fits(bs, j, b) && k < |Plain(bs, j, b)|
    requires LinkAt(bs, ptr, size, j)
    requires k != j + 1 ==> LinkAt(bs, ptr, size, if k <= j then k else k - 1)
    ensures LinkAt(Plain(bs, j, b), ptr[b.addr := ptr[bs[j].addr]][bs[j].addr := b.addr], size[b.addr := b.size], k)
  {
    PlainAddrs(bs, base, j, b, k);
    PlainIndex(bs, j, b, 0);
    PlainIndex(bs, j, b, k);
    if k + 1 < |Plain(bs, j, b)| {
      PlainIndex(bs, j, b, k + 1);
    }
    hide Plain, Ordered, Fits;
  }

  /** p->s.size += q->s.size; p->s.ptr = q->s.ptr, for the next block q. */
  lemma MergeLinked(bs: seq<Blk>, base: nat, lo: nat, hi: nat, k: nat, ptr: map<int, int>, size: map<int, int>)
    requires OrderedBut(bs, base, lo, hi) && Linked(bs, ptr, size) && Touching(bs, k)
    ensures LinkAt(bs, ptr, size, k) && LinkAt(bs, ptr, size, k + 1)
    ensures Linked(MergeAt(bs, k), ptr[bs[k].addr := ptr[bs[k + 1].addr]],
                   size[bs[k].addr := size[bs[k].addr] + size[bs[k + 1].addr]])
  {
    assert LinkAt(bs, ptr, size, k) && LinkAt(bs, ptr, size, k + 1);
    var r := MergeAt(bs, k);
    var ptr' := ptr[bs[k].addr := ptr[bs[k + 1].addr]];
    var size' := size[bs[k].addr := size[bs[k].addr] + size[bs[k + 1].addr]];
    AllAscending(bs, base, lo, hi);
    forall i | 0 <= i < |r|
      ensures LinkAt(r, ptr', size', i)
    {
      assert r[0].addr == bs[0].addr;
      if i < k {
        assert r[i] == bs[i] && LinkAt(bs, ptr, size, i) && r[i + 1].addr == bs[i + 1].addr;
      } else if i == k {
        assert i + 1 < |r| ==> r[i + 1] == bs[i + 2];
      } else {
        assert r[i] == bs[i + 1] && LinkAt(bs, ptr, size, i + 1) && (i + 1 < |r| ==> r[i + 1] == bs[i + 2]);
      }
    }
  }

  /** The ptr fields that free() leaves. */
  ghost function SplicedPtr(bs: seq<Blk>, j: nat, b: Blk, ptr: map<int, int>, size: map<int, int>): map<int, int>
    requires j < |bs|
  {
    var next := UpLinks(bs, j, b).0;
    if bs[j].End() == b.addr then ptr[b.addr := next][bs[j].addr := next] else ptr[b.addr := next][bs[j].addr := b.addr]
  }

  ghost function SplicedSize(bs: seq<Blk>, j: nat, b: Blk, ptr: map<int, int>, size: map<int, int>): map<int, int>
    requires j < |bs|
  {
    var sz := UpLinks(bs, j, b).1;
    if bs[j].End() == b.addr then size[b.addr := sz][bs[j].addr := bs[j].size + sz] else size[b.addr := sz]
  }

  /** The three list surgeries of free() compose to its assignments. */
  lemma InsertSteps(bs: seq<Blk>, base: nat, j: nat, b: Blk, ptr: map<int, int>, size: map<int, int>)
    requires Ordered(bs, base) && Fits(bs, j, b) && Linked(bs, ptr, size) && b.addr in size && size[b.addr] == b.size
    ensures LinkAt(bs, ptr, size, j) && (j + 1 < |bs| ==> LinkAt(bs, ptr, size, j + 1)) && bs[0].addr == base
    ensures Linked(Insert(bs, j, b), SplicedPtr(bs, j, b, ptr, size), SplicedSize(bs, j, b, ptr, size))
  {
    UpStep(bs, base, j, b, ptr, size);
    UpShape(bs, base, j, b);
    assert bs[j].addr != b.addr && bs[0].addr == base;
    hide OrderedBut, Linked, Plain, Fits, MergeAt, UpLinks;
    var bs2 := MergeAt(Plain(bs, j, b), j + 1);
    var up := UpLinks(bs, j, b);
    var ptr2, size2 := ptr[b.addr := up.0][bs[j].addr := b.addr], size[b.addr := up.1];
    if Touching(bs2, j) {
      MergeLinked(bs2, base, j, j + 1, j, ptr2, size2);
      hide LinkAt;
      assert ptr2[bs[j].addr := ptr2[b.addr]] == SplicedPtr(bs, j, b, ptr, size);
      assert size2[bs[j].addr := size2[bs[j].addr] + size2[b.addr]] == SplicedSize(bs, j, b, ptr, size);
    } else {
      MergeSame(bs2, j);
    }
  }

  lemma UpShape(bs: seq<Blk>, base: nat, j: nat, b: Blk)
    requires Ordered(bs, base) && Fits(bs, j, b)
    ensures var bs2 := MergeAt(Plain(bs, j, b), j + 1);
            OrderedBut(bs2, base, j, j + 1) && |bs2| > j + 1 && bs2[j] == bs[j] && bs2[j + 1].addr == b.addr
  {
    PlainIndex(bs, j, b, j);
    PlainIndex(bs, j, b, j + 1);
    hide Plain, MergeAt, OrderedBut;
    PlainOrdered(bs, base, j, b);
    MergeOrdered(Plain(bs, j, b), base, j, j + 1);
    MergeHead(Plain(bs, j, b), j + 1);
  }

  /** The next pointer and the size of the freed block once it has been merged upwards. */
  function UpLinks(bs: seq<Blk>, j: nat, b: Blk): (nat, nat)
    requires j < |bs|
  {
    if j + 1 < |bs| && b.End() == bs[j + 1].addr then (bs[NextIndex(|bs|, j + 1)].addr, b.size + bs[j + 1].size)
    else (bs[NextIndex(|bs|, j)].addr, b.size)
  }

  lemma UpStep(bs: seq<Blk>, base: nat, j: nat, b: Blk, ptr: map<int, int>, size: map<int, int>)
    requires Ordered(bs, base) && Fits(bs, j, b) && Linked(bs, ptr, size) && b.addr in size && size[b.addr] == b.size
    ensures LinkAt(bs, ptr, size, j) && (j + 1 < |bs| ==> LinkAt(bs, ptr, size, j + 1)) && bs[0].addr == base
    ensures var up := UpLinks(bs, j, b);
            Linked(MergeAt(Plain(bs, j, b), j + 1), ptr[b.addr := up.0][bs[j].addr := b.addr], size[b.addr := up.1])
  {
    assert LinkAt(bs, ptr, size, j) && (j + 1 < |bs| ==> LinkAt(bs, ptr, size, j + 1));
    PlainLinked(bs, base, j, b, ptr, size);
    PlainOrdered(bs, base, j, b);
    PlainIndex(bs, j, b, j + 1);
    if j + 1 < |bs| {
      PlainIndex(bs, j, b, j + 2);
      Ascending(bs, base, 0, 0, j, j + 1);
    }
    var bs1 := Plain(bs, j, b);
    var ptr1, size1 := ptr[b.addr := ptr[bs[j].addr]][bs[j].addr := b.addr], size[b.addr := b.size];
    var up := UpLinks(bs, j, b);
    hide OrderedBut, Linked, Plain;
    if Touching(bs1, j + 1) {
      MergeLinked(bs1, base, j, j + 2, j + 1, ptr1, size1);
      assert ptr1[b.addr := ptr1[bs1[j + 2].addr]] == ptr[b.addr := up.0][bs[j].addr := b.addr];
      assert size1[b.addr := size1[b.addr] + size1[bs1[j + 2].addr]] == size[b.addr := up.1];
    } else {
      MergeSame(bs1, j + 1);
    }
  }

  lemma MergeSame(bs: seq<Blk>, k: nat)
    requires !Touching(bs, k)
    ensures MergeAt(bs, k) == bs
  {
  }

  lemma MergeHead(bs: seq<Blk>, k: nat)
    requires 1 <= k < |bs|
    ensures |MergeAt(bs, k)| > k && MergeAt(bs, k)[k - 1] == bs[k - 1] && MergeAt(bs, k)[k].addr == bs[k].addr
  {
  }

  lemma InsertFirst(bs: seq<Blk>, base: nat, j: nat, b: Blk)
    requires Ordered(bs, base) && Fits(bs, j, b)
    ensures j < |Insert(bs, j, b)| && Insert(bs, j, b)[j].addr == bs[j].addr
  {
    PlainIndex(bs, j, b, j);
    MergeHead(Plain(bs, j, b), j + 1);
  }

  // ---- taking a block ----

  /** The list after malloc() took n units from the end of block k, or all of it. */
  function Take(bs: seq<Blk>, k: nat, n: nat): (r: seq<Blk>)
    requires k < |bs| && n <= bs[k].size
  {
    if bs[k].size == n then bs[..k] + bs[k + 1..] else bs[k := Blk(bs[k].addr, bs[k].size - n)]
  }

  lemma TakeOrdered(bs: seq<Blk>, base: nat, k: nat, n: nat)
    requires Ordered(bs, base) && 1 <= k < |bs| && 1 <= n <= bs[k].size
    ensures Ordered(Take(bs, k, n), base)
  {
    var r := Take(bs, k, n);
    forall i | 0 <= i < |r| - 1
      ensures r[i].addr < r[i + 1].addr && r[i].End() < r[i + 1].addr
    {
      if bs[k].size == n {
        if i < k - 1 {
          assert r[i] == bs[i] && r[i + 1] == bs[i + 1];
        } else if i == k - 1 {
          assert r[i] == bs[k - 1] && r[i + 1] == bs[k + 1];
          assert bs[k - 1].End() < bs[k - 1 + 1].addr && bs[k].End() < bs[k + 1].addr;
        } else {
          assert r[i] == bs[i + 1] && r[i + 1] == bs[i + 1 + 1];
        }
      } else {
        assert bs[i].End() < bs[i + 1].addr;
      }
    }
  }

  lemma TakeAt(bs: seq<Blk>, k: nat, n: nat, i: nat)
    requires k < |bs| && 1 <= n <= bs[k].size && i < |Take(bs, k, n)|
    ensures var m := if bs[k].size == n && i >= k then i + 1 else i;
            m < |bs| && Take(bs, k, n)[i] == if m == k then Blk(bs[k].addr, bs[k].size - n) else bs[m]
  {
  }

  lemma TakeLength(bs: seq<Blk>, k: nat, n: nat)
    requires k < |bs| && 1 <= n <= bs[k].size
    ensures |Take(bs, k, n)| == if bs[k].size == n then |bs| - 1 else |bs|
  {
  }

  lemma TakeLeaves(bs: seq<Blk>, base: nat, k: nat, n: nat, u: int, i: nat)
    requires Ordered(bs, base) && 1 <= k < |bs| && 1 <= n <= bs[k].size
    requires i < |Take(bs, k, n)| && Take(bs, k, n)[i].addr <= u < Take(bs, k, n)[i].End()
    ensures FreeUnit(bs, u) && !(bs[k].End() - n <= u < bs[k].End())
  {
    TakeAt(bs, k, n, i);
    hide Take, Ordered;
    var m := if bs[k].size == n && i >= k then i + 1 else i;
    assert bs[m].addr <= u < bs[m].End();
    if m < k {
      Ascending(bs, base, 0, 0, m, k);
    } else if k < m {
      Ascending(bs, base, 0, 0, k, m);
    }
  }

  /** The units taken were free, are no longer, and no other unit changed. */
  lemma TakeUnits(bs: seq<Blk>, base: nat, k: nat, n: nat, u: int)
    requires Ordered(bs, base) && 1 <= k < |bs| && 1 <= n <= bs[k].size
    ensures FreeUnit(Take(bs, k, n), u) <==> FreeUnit(bs, u) && !(bs[k].End() - n <= u < bs[k].End())
  {
    hide Take, Ordered;
    var r := Take(bs, k, n);
    if i :| 0 <= i < |r| && r[i].addr <= u < r[i].End() {
      TakeLeaves(bs, base, k, n, u, i);
    }
    if FreeUnit(bs, u) && !(bs[k].End() - n <= u < bs[k].End()) {
      var i :| 0 <= i < |bs| && bs[i].addr <= u < bs[i].End();
      var m := if bs[k].size == n && i > k then i - 1 else i;
      TakeLength(bs, k, n);
      TakeAt(bs, k, n, m);
      assert r[m].addr <= u < r[m].End();
    }
  }

  lemma TakeFirst(bs: seq<Blk>, base: nat, k: nat, n: nat)
    requires Ordered(bs, base) && 1 <= k < |bs| && 1 <= n <= bs[k].size
    ensures |Take(bs, k, n)| >= k && Take(bs, k, n)[k - 1].addr == bs[k - 1].addr >= base
    ensures base < bs[k].addr
  {
    Ascending(bs, base, 0, 0, 0, k);
    if k > 1 {
      Ascending(bs, base, 0, 0, 0, k - 1);
    }
  }

  /** The header written into the tail of a block that is cut is not a list entry. */
  lemma TakeHeader(bs: seq<Blk>, base: nat, k: nat, n: nat, i: nat)
    requires Ordered(bs, base) && 1 <= k < |bs| && 1 <= n < bs[k].size && i < |bs|
    ensures bs[k].End() - n != bs[i].addr
  {
    if i < k {
      Ascending(bs, base, 0, 0, i, k);
    } else if k < i {
      Ascending(bs, base, 0, 0, k, i);
    }
  }

  /** prevp->s.ptr = p->s.ptr for a whole block, or p->s.size -= nunits. */
  lemma TakeLinked(bs: seq<Blk>, base: nat, k: nat, n: nat, ptr: map<int, int>, size: map<int, int>)
    requires Ordered(bs, base) && Linked(bs, ptr, size) && 1 <= k < |bs| && 1 <= n <= bs[k].size
    ensures LinkAt(bs, ptr, size, k)
    ensures bs[k].size == n ==> Linked(Take(bs, k, n), ptr[bs[k - 1].addr := ptr[bs[k].addr]], size)
    ensures bs[k].size > n ==>
              Linked(Take(bs, k, n), ptr, size[bs[k].addr := bs[k].size - n][bs[k].End() - n := n])
  {
    assert LinkAt(bs, ptr, size, k);
    var r := Take(bs, k, n);
    if bs[k].size == n {
      var ptr' := ptr[bs[k - 1].addr := ptr[bs[k].addr]];
      forall i | 0 <= i < |r|
        ensures LinkAt(r, ptr', size, i)
      {
        TakeWholeLinkAt(bs, base, k, ptr, size, i);
      }
    } else {
      var size' := size[bs[k].addr := bs[k].size - n][bs[k].End() - n := n];
      forall i | 0 <= i < |r|
        ensures LinkAt(r, ptr, size', i)
      {
        assert LinkAt(bs, ptr, size, i);
        assert r[NextIndex(|r|, i)].addr == bs[NextIndex(|bs|, i)].addr;
        TakeHeader(bs, base, k, n, i);
        if i < k {
          Ascending(bs, base, 0, 0, i, k);
        } else if k < i {
          Ascending(bs, base, 0, 0, k, i);
        }
      }
    }
  }

  lemma TakeWholeLinkAt(bs: seq<Blk>, base: nat, k: nat, ptr: map<int, int>, size: map<int, int>, i: nat)
    requires Ordered(bs, base) && Linked(bs, ptr, size) && 1 <= k < |bs| && i < |bs| - 1
    requires LinkAt(bs, ptr, size, k)
    ensures LinkAt(bs[..k] + bs[k + 1..], ptr[bs[k - 1].addr := ptr[bs[k].addr]], size, i)
  {
    var r := bs[..k] + bs[k + 1..];
    var m := if i < k then i else i + 1;
    assert r[i] == bs[m] && LinkAt(bs, ptr, size, m);
    assert r[0] == bs[0] && (i + 1 < |r| ==> r[i + 1] == bs[if i + 1 < k then i + 1 else i + 2]);
    if m < k - 1 {
      Ascending(bs, base, 0, 0, m, k - 1);
    } else if k - 1 < m {
      Ascending(bs, base, 0, 0, k - 1, m);
    }
  }

  // ---- where a freed block goes ----

  /** The last list position below address a. */
  ghost function Position(bs: seq<Blk>, a: int): (j: nat)
    requires |bs| >= 1
    ensures j < |bs| && (j > 0 ==> bs[j].addr < a)
  {
    if |bs| > 1 && bs[|bs| - 1].addr < a then |bs| - 1
    else if |bs| > 1 then Position(bs[..|bs| - 1], a) else 0
  }

  lemma {:induction false} PositionSplits(bs: seq<Blk>, base: nat, a: int, i: nat)
    requires Ordered(bs, base) && base < a && i < |bs|
    ensures i <= Position(bs, a) ==> bs[i].addr < a
    ensures i > Position(bs, a) ==> bs[i].addr >= a
    decreases |bs|
  {
    var n := |bs|;
    if n > 1 && bs[n - 1].addr < a {
      if i < n - 1 {
        Ascending(bs, base, 0, 0, i, n - 1);
      }
    } else if n > 1 && i < n - 1 {
      PositionSplits(bs[..n - 1], base, a, i);
    }
  }

  /** free()'s loop stops exactly at the position where the block belongs. */
  lemma StopsAtPosition(bs: seq<Blk>, base: nat, bp: int, i: nat)
    requires Ordered(bs, base) && base < bp && i < |bs| && forall k :: 0 <= k < |bs| ==> bs[k].addr != bp
    ensures var p, next := bs[i].addr, bs[NextIndex(|bs|, i)].addr;
            i == Position(bs, bp) <==> (p < bp < next) || (p >= next && (bp > p || bp < next))
  {
    var j := Position(bs, bp);
    PositionSplits(bs, base, bp, i);
    PositionSplits(bs, base, bp, NextIndex(|bs|, i));
    if i + 1 < |bs| {
      Ascending(bs, base, 0, 0, i, i + 1);
    } else if i > 0 {
      Ascending(bs, base, 0, 0, 0, i);
    }
  }

  /** The ring ascends except at one place: from its last block back to base. */
  lemma OneWrap(bs: seq<Blk>, base: nat, ptr: map<int, int>, size: map<int, int>, i: nat)
    requires Ordered(bs, base) && Linked(bs, ptr, size) && i < |bs|
    ensures bs[i].addr in ptr && (bs[i].addr < ptr[bs[i].addr] <==> i < |bs| - 1)
  {
    assert LinkAt(bs, ptr, size, i);
    if i < |bs| - 1 {
      Ascending(bs, base, 0, 0, i, i + 1);
    } else if i > 0 {
      Ascending(bs, base, 0, 0, 0, i);
    }
  }

  function Distance(n: nat, i: nat, j: nat): (d: nat)
    requires i < n && j < n
  {
    if i <= j then j - i else n - i + j
  }

  /** A block that overlaps no free block belongs at Position, between its neighbours. */
  lemma PositionFits(bs: seq<Blk>, base: nat, b: Blk)
    requires Ordered(bs, base) && base < b.addr && b.size >= 1
    requires forall i :: 0 <= i < |bs| ==> bs[i].End() <= b.addr || b.End() <= bs[i].addr
    ensures Fits(bs, Position(bs, b.addr), b)
    ensures forall i :: 0 <= i < |bs| ==> bs[i].addr != b.addr
  {
    var j := Position(bs, b.addr);
    PositionSplits(bs, base, b.addr, j);
    if j + 1 < |bs| {
      PositionSplits(bs, base, b.addr, j + 1);
    }
  }

  /** The unit u lies in an allocated block. */
  ghost predicate LiveUnit(live: map<int, nat>, u: int) {
    exists a :: a in live && a <= u < a + live[a]
  }

  /** No free block overlaps an interval without free units. */
  lemma Separate(bs: seq<Blk>, base: nat, a: int, n: nat)
    requires Ordered(bs, base) && base < a && n >= 1 && forall u :: a <= u < a + n ==> !FreeUnit(bs, u)
    ensures forall i :: 0 <= i < |bs| ==> bs[i].End() <= a || a + n <= bs[i].addr
  {
    forall i | 0 <= i < |bs|
      ensures bs[i].End() <= a || a + n <= bs[i].addr
    {
      if i > 0 && bs[i].End() > a && a + n > bs[i].addr {
        assert bs[i].size >= 1;
        assert FreeUnit(bs, if bs[i].addr < a then a else bs[i].addr);
      }
    }
  }

  ghost predicate LiveOk(live: map<int, nat>, size: map<int, int>, base: nat) {
    && (forall a :: a in live ==> base < a && live[a] >= 1 && a in size && size[a] == live[a])
    && (forall a, b :: a in live && b in live && a < b ==> a + live[a] <= b)
  }

  /** Every unit obtained from sbrk is in exactly one block, free or allocated. */
  ghost predicate Partition(free: seq<Blk>, live: map<int, nat>, heap: set<int>, base: nat) {
    && (forall u :: u in heap <==> FreeUnit(free, u) || LiveUnit(live, u))
    && (forall u :: FreeUnit(free, u) ==> !LiveUnit(live, u))
    && (forall u :: u in heap ==> base < u)
  }

  lemma LiveHas(live: map<int, nat>, a: int, u: int)
    requires a in live && a <= u < a + live[a]
    ensures LiveUnit(live, u)
  {
  }

  lemma LiveRemove(live: map<int, nat>, size: map<int, int>, base: nat, bp: int, u: int)
    requires LiveOk(live, size, base) && bp in live
    ensures LiveUnit(live - {bp}, u) <==> LiveUnit(live, u) && !(bp <= u < bp + live[bp])
  {
    if LiveUnit(live - {bp}, u) {
      var a :| a in live - {bp} && a <= u < a + live[a];
      assert a < bp || bp < a;
    }
    if LiveUnit(live, u) && !(bp <= u < bp + live[bp]) {
      var a :| a in live && a <= u < a + live[a];
      assert a in live - {bp};
    }
  }

  lemma LiveAdd(live: map<int, nat>, p: int, n: nat, u: int)
    requires p !in live
    ensures LiveUnit(live[p := n], u) <==> LiveUnit(live, u) || p <= u < p + n
  {
    var r := live[p := n];
    if LiveUnit(live, u) {
      var a :| a in live && a <= u < a + live[a];
      assert a in r && r[a] == live[a];
    }
    assert p in r && r[p] == n;
  }

  /** A freed block is not split: some block of the new list holds it. */
  lemma InsertHolds(bs: seq<Blk>, j: nat, b: Blk, n: nat)
    requires j < |bs| && n <= b.size
    ensures !NoneFits(Insert(bs, j, b), n)
  {
    PlainIndex(bs, j, b, j + 1);
    var bs2 := MergeAt(Plain(bs, j, b), j + 1);
    assert |bs2| > j + 1 && bs2[j + 1].size >= b.size;
    var r := MergeAt(bs2, j);
    assert r[if Touching(bs2, j) then j else j + 1].size >= b.size;
  }

  /** What malloc() asks for: the bytes, in header-sized units, and one unit for the header. */
  function Units(nbytes: nat): (n: nat)
    ensures n >= 1 && 8 * (n - 1) >= nbytes && (n >= 2 ==> 8 * (n - 2) < nbytes)
  {
    (nbytes + 7) / 8 + 1
  }

  /** morecore() rounds small requests up. */
  function CoreUnits(n: nat): (r: nat) {
    if n < 4096 then 4096 else n
  }

  ghost predicate NoneFits(bs: seq<Blk>, n: nat) {
    forall i :: 0 <= i < |bs| ==> bs[i].size < n
  }

  /** The units [a, a + n). */
  ghost function Interval(a: int, n: nat): (r: set<int>)
    ensures forall u :: u in r <==> a <= u < a + n
  {
    if n == 0 then {} else Interval(a, n - 1) + {a + n - 1}
  }

  /** The n units at hp are above `base` and not yet in the heap. */
  ghost predicate Unseen(heap: set<int>, base: nat, hp: int, n: nat) {
    base < hp && forall u :: hp <= u < hp + n ==> u !in heap
  }

  lemma {:induction false} IntervalSize(a: int, n: nat)
    ensures |Interval(a, n)| == n
  {
    if n > 0 {
      IntervalSize(a, n - 1);
    }
  }

  lemma NewUnits(heap: set<int>, base: nat, hp: int, n: nat)
    requires Unseen(heap, base, hp, n)
    ensures |heap + Interval(hp, n)| == |heap| + n
  {
    IntervalSize(hp, n);
    hide Interval;
    assert heap !! Interval(hp, n);
  }

  /** Units new to the heap, once freed, extend the partition. */
  lemma GrowPartition(free: seq<Blk>, live: map<int, nat>, heap: set<int>, base: nat, j: nat, hp: nat, n: nat)
    requires Partition(free, live, heap, base) && Unseen(heap, base, hp, n) && j < |free|
    ensures Partition(Insert(free, j, Blk(hp, n)), live, heap + Interval(hp, n), base)
    ensures forall u :: hp <= u < hp + n ==> !FreeUnit(free, u)
  {
    hide FreeUnit, LiveUnit, Insert;
    forall u
      ensures FreeUnit(Insert(free, j, Blk(hp, n)), u) <==> FreeUnit(free, u) || hp <= u < hp + n
    {
      InsertUnits(free, j, Blk(hp, n), u);
    }
  }

  /** Going round from the block after f, all blocks before k are smaller than n. */
  ghost predicate SmallBefore(bs: seq<Blk>, f: nat, k: nat, n: nat)
    requires f < |bs| && k < |bs|
  {
    forall m :: 0 <= m < |bs| && Distance(|bs|, m, f) > Distance(|bs|, k, f) ==> bs[m].size < n
  }

  lemma SmallStep(bs: seq<Blk>, f: nat, k: nat, n: nat)
    requires f < |bs| && k < |bs| && SmallBefore(bs, f, k, n) && bs[k].size < n
    ensures k != f ==> SmallBefore(bs, f, NextIndex(|bs|, k), n)
    ensures k != f ==> Distance(|bs|, NextIndex(|bs|, k), f) < Distance(|bs|, k, f)
    ensures k == f ==> NoneFits(bs, n)
  {
    forall m | 0 <= m < |bs| && m != k && (k == f || Distance(|bs|, m, f) > Distance(|bs|, NextIndex(|bs|, k), f))
      ensures bs[m].size < n
    {
      assert Distance(|bs|, m, f) > Distance(|bs|, k, f);
    }
  }

  lemma LinkedAt(bs: seq<Blk>, ptr: map<int, int>, size: map<int, int>, i: nat)
    requires Linked(bs, ptr, size) && i < |bs|
    ensures LinkAt(bs, ptr, size, i)
  {
  }

  lemma FirstStop(bs: seq<Blk>, f: nat, n: nat)
    requires f < |bs|
    ensures SmallBefore(bs, f, NextIndex(|bs|, f), n)
  {
  }

  lemma SameBlock(bs: seq<Blk>, base: nat, i: nat, j: nat)
    requires Ordered(bs, base) && i < |bs| && j < |bs| && bs[i].addr == bs[j].addr
    ensures i == j
  {
    if i < j {
      Ascending(bs, base, 0, 0, i, j);
    } else if j < i {
      Ascending(bs, base, 0, 0, j, i);
    }
  }

  /** A block on units that were not allocated can be added to the allocated ones. */
  lemma LiveOkAdd(live: map<int, nat>, size: map<int, int>, size': map<int, int>, base: nat, r: int, n: nat)
    requires LiveOk(live, size, base) && r !in live && base < r && n >= 1 && r in size' && size'[r] == n
    requires forall a :: a in live ==> a in size' && size'[a] == size[a]
    requires forall u :: r <= u < r + n ==> !LiveUnit(live, u)
    ensures LiveOk(live[r := n], size', base)
  {
    forall a | a in live
      ensures a + live[a] <= r || r + n <= a
    {
      if a < r < a + live[a] {
        LiveHas(live, a, r);
      }
      LiveHas(live, a, a);
    }
  }

  /** Units cut from a free block pass from the free part to the allocated part. */
  lemma TakePartition(free: seq<Blk>, live: map<int, nat>, heap: set<int>, base: nat, k: nat, n: nat)
    requires Ordered(free, base) && Partition(free, live, heap, base)
    requires 1 <= k < |free| && 1 <= n <= free[k].size && forall a :: a in live ==> live[a] >= 1
    ensures var p := free[k].End() - n;
            && p !in live && Partition(Take(free, k, n), live[p := n], heap, base)
            && (forall u :: p <= u < p + n ==> u in heap && !LiveUnit(live, u))
  {
    var p := free[k].End() - n;
    forall u | p <= u < p + n
      ensures FreeUnit(free, u)
    {
    }
    hide FreeUnit, OrderedBut, Take;
    if p in live {
      LiveHas(live, p, p);
    }
    forall u
      ensures FreeUnit(Take(free, k, n), u) <==> FreeUnit(free, u) && !(p <= u < p + n)
      ensures p !in live ==> (LiveUnit(live[p := n], u) <==> LiveUnit(live, u) || p <= u < p + n)
    {
      TakeUnits(free, base, k, n, u);
      if p !in live {
        LiveAdd(live, p, n, u);
      }
    }
  }

  /** The loop of malloc() from one block after freep = block f, up to a block that is large enough
      or, failing that, to freep itself. */
  method Trip(ghost bs: seq<Blk>, ghost base: nat, ptr: map<int, int>, size: map<int, int>, freep: int, ghost f: nat,
              nunits: nat)
    returns (found: bool, prevp: int, p: int, ghost k: nat)
    requires Ordered(bs, base) && Linked(bs, ptr, size) && nunits >= 1 && f < |bs| && bs[f].addr == freep
    ensures k < |bs|
    ensures found ==> k >= 1 && p == bs[k].addr && prevp == bs[k - 1].addr
    ensures found ==> bs[k].size >= nunits && SmallBefore(bs, f, k, nunits)
    ensures found <==> !NoneFits(bs, nunits)
  {
    assert bs[0].size == 0;
    hide Ordered, Linked, Distance, SmallBefore;
    prevp := freep;
    LinkedAt(bs, ptr, size, f);
    p := ptr[prevp];
    k := NextIndex(|bs|, f);
    LinkedAt(bs, ptr, size, k);
    FirstStop(bs, f, nunits);
    while size[p] < nunits && p != freep
      invariant k < |bs| && p == bs[k].addr && LinkAt(bs, ptr, size, k)
      invariant k >= 1 ==> prevp == bs[k - 1].addr
      invariant SmallBefore(bs, f, k, nunits)
      decreases Distance(|bs|, k, f)
    {
      SmallStep(bs, f, k, nunits);
      prevp := p;
      p := ptr[p];
      k := NextIndex(|bs|, k);
      LinkedAt(bs, ptr, size, k);
    }
    found := size[p] >= nunits;
    if !found {
      SameBlock(bs, base, f, k);
      SmallStep(bs, f, k, nunits);
    }
  }

  class Heap {
    const base: nat
    var freep: int
    var ptr: map<int, int>
    var size: map<int, int>
    ghost var free: seq<Blk>
    ghost var live: map<int, nat>
    ghost var heap: set<int>

    /** The free list in memory, once it has been set up. */
    ghost predicate ListOk()
      reads this
    {
      && 0 < base && Ordered(free, base) && Linked(free, ptr, size)
      && exists f :: 0 <= f < |free| && free[f].addr == freep
    }

    constructor (base: nat)
      requires base > 0
      ensures Valid() && this.base == base && freep == 0 && free == [] && live == map[] && heap == {}
    {
      this.base := base;
      freep, ptr, size := 0, map[], map[];
      free, live, heap := [], map[], {};
    }

    ghost predicate Valid()
      reads this
    {
      && 0 < base
      && (freep == 0 <==> free == [])
      && (freep == 0 ==> live == map[])
      && (freep != 0 ==> ListOk())
      && LiveOk(live, size, base)
      && Partition(free, live, heap, base)
    }

    /** The first use of the allocator makes `base` a ring of one empty block. */
    method Setup()
      requires Valid() && freep == 0
      modifies this
      ensures Valid() && freep == base && free == [Blk(base, 0)]
      ensures live == old(live) && heap == old(heap)
    {
      freep, ptr, size := base, ptr[base := base], size[base := 0];
      free := [Blk(base, 0)];
      assert free[0].addr == freep && LinkAt(free, ptr, size, 0);
    }

    /** morecore(): brk is what sbrk returns. New units become free, coalesced with the old ones. */
    method Morecore(nu: nat, brk: Option<int>) returns (p: int)
      requires Valid() && freep != 0 && (brk.Some? ==> Unseen(heap, base, brk.value, CoreUnits(nu)))
      modifies this
      ensures Valid() && live == old(live)
      ensures brk.None? ==> p == 0 && free == old(free) && heap == old(heap) && freep == old(freep)
      ensures brk.Some? ==>
                && p == freep != 0 && !NoneFits(free, nu)
                && heap == old(heap) + Interval(brk.value, Max(nu, 4096)) && |heap| == |old(heap)| + Max(nu, 4096)
    {
      if brk.None? {
        return 0;
      }
      NewUnits(heap, base, brk.value, CoreUnits(nu));
      Extend(brk.value, CoreUnits(nu), nu);
      p := freep;
    }

    /** The n units at hp, new to the heap, become a free block. */
    method Extend(hp: nat, n: nat, ghost nu: nat)
      requires Valid() && freep != 0 && Unseen(heap, base, hp, n) && n >= 1 && n >= nu
      modifies this
      ensures Valid() && live == old(live) && freep != 0
      ensures heap == old(heap) + Interval(hp, n) && !NoneFits(free, nu)
    {
      hide OrderedBut, Linked, Insert, Partition, OnList, FreeUnit, NoneFits, Position;
      ghost var j := Position(free, hp);
      GrowPartition(free, live, heap, base, j, hp, n);
      FreshHeader(hp, n);
      Separate(free, base, hp, n);
      InsertHolds(free, j, Blk(hp, n), nu);
      forall a | a in live
        ensures a != hp && !OnList(free, a)
      {
        LiveNotFree(a);
      }
      size := size[hp := n];
      Release(hp);
      heap := heap + Interval(hp, n);
    }

    /** No list entry is where the new units are. */
    lemma FreshHeader(hp: int, n: nat)
      requires Valid() && ListOk() && Unseen(heap, base, hp, n) && n >= 1
      ensures Linked(free, ptr, size[hp := n])
    {
      var size' := size[hp := n];
      forall i | 0 <= i < |free|
        ensures LinkAt(free, ptr, size', i)
      {
        assert LinkAt(free, ptr, size, i);
        assert i > 0 ==> FreeUnit(free, free[i].addr);
      }
    }

    /** One trip of malloc()'s loop round the ring: the first block that is large enough. */
    method Search(nunits: nat) returns (found: bool, prevp: int, p: int, ghost f: nat, ghost k: nat)
      requires ListOk() && nunits >= 1
      ensures f < |free| && k < |free| && free[f].addr == freep
      ensures found ==> k >= 1 && p == free[k].addr && prevp == free[k - 1].addr
      ensures found ==> free[k].size >= nunits && SmallBefore(free, f, k, nunits)
      ensures found <==> !NoneFits(free, nunits)
    {
      hide Ordered, Linked, Distance, SmallBefore, NoneFits;
      f :| 0 <= f < |free| && free[f].addr == freep;
      found, prevp, p, k := Trip(free, base, ptr, size, freep, f, nunits);
    }

    /** malloc()'s cut from block k: the whole block, or its last nunits units. */
    method Cut(prevp: int, p: int, nunits: nat, ghost k: nat) returns (r: int)
      requires Valid() && freep != 0 && 1 <= k < |free| && 1 <= nunits <= free[k].size
      requires p == free[k].addr && prevp == free[k - 1].addr
      modifies this
      ensures Valid() && freep == prevp && heap == old(heap)
      ensures r == old(free)[k].End() - nunits && r !in old(live) && live == old(live)[r := nunits]
      ensures free == Take(old(free), k, nunits)
      ensures forall u :: r <= u < r + nunits ==> u in heap && !LiveUnit(old(live), u)
    {
      hide OrderedBut, Linked, Take, Partition, LiveUnit;
      LinkedAt(free, ptr, size, k);
      TakePartition(free, live, heap, base, k, nunits);
      TakeOrdered(free, base, k, nunits);
      TakeLinked(free, base, k, nunits, ptr, size);
      TakeFirst(free, base, k, nunits);
      forall a | a in live
        ensures a in size && a != p && a != free[k].End() - nunits
      {
        LiveNotFree(a);
      }
      hide LiveOk;
      r := p;
      if size[p] == nunits {
        ptr := ptr[prevp := ptr[p]];
      } else {
        size := size[p := size[p] - nunits];
        r := p + size[p];
        size := size[r := nunits];
      }
      freep := prevp;
      free := Take(free, k, nunits);
      LiveOkAdd(live, old(size), size, base, r, nunits);
      live := live[r := nunits];
    }

    /** malloc(): brk is what sbrk returns if it is called. The result is the address after the header. */
    method Malloc(nbytes: nat, brk: Option<int>) returns (ap: Option<int>)
      requires Valid() && (brk.Some? ==> Unseen(heap, base, brk.value, CoreUnits(Units(nbytes))))
      modifies this
      ensures Valid()
      ensures ap.None? <==> brk.None? && NoneFits(old(free), Units(nbytes))
      ensures ap.None? ==> live == old(live) && heap == old(heap)
      ensures ap.Some? ==>
                && ap.value - 1 !in old(live) && live == old(live)[ap.value - 1 := Units(nbytes)]
                && forall u :: ap.value - 1 <= u < ap.value - 1 + Units(nbytes) ==> u in heap && !LiveUnit(old(live), u)
      ensures !NoneFits(old(free), Units(nbytes)) ==> heap == old(heap)
      ensures ap.Some? && NoneFits(old(free), Units(nbytes)) ==>
                && heap == old(heap) + Interval(brk.value, Max(Units(nbytes), 4096))
                && |heap| == |old(heap)| + Max(Units(nbytes), 4096)
    {
      hide ListOk, LiveOk, Partition, LiveUnit;
      var nunits := Units(nbytes);
      if freep == 0 {
        Setup();
      }
      assert NoneFits(free, nunits) <==> NoneFits(old(free), nunits);
      hide NoneFits, Units;
      assert ListOk();
      var found, prevp, p, f, k := Search(nunits);
      if !found {
        var c := Morecore(nunits, brk);
        if c == 0 {
          return None;
        }
        found, prevp, p, f, k := Search(nunits);
      }
      var r := Cut(prevp, p, nunits, k);
      ap := Some(r + 1);
    }

    /** free() of an allocated block: its units, and only they, become free. */
    method Free(bp: int)
      requires Valid() && bp in live
      modifies this
      ensures Valid() && live == old(live) - {bp} && heap == old(heap)
      ensures forall u :: FreeUnit(free, u) <==> FreeUnit(old(free), u) || bp <= u < bp + old(live)[bp]
    {
      hide OrderedBut, Linked, Insert, FreeUnit, LiveUnit, OnList;
      ghost var n, j := live[bp], Position(free, bp);
      assert forall u :: bp <= u < bp + n ==> !FreeUnit(free, u) by {
        hide ListOk;
        forall u | bp <= u < bp + n
          ensures LiveUnit(live, u)
        {
          LiveHas(live, bp, u);
        }
      }
      Separate(free, base, bp, n);
      forall u
        ensures FreeUnit(Insert(free, j, Blk(bp, n)), u) <==> FreeUnit(free, u) || bp <= u < bp + n
        ensures LiveUnit(live - {bp}, u) <==> LiveUnit(live, u) && !(bp <= u < bp + n)
        ensures bp <= u < bp + n ==> LiveUnit(live, u)
      {
        InsertUnits(free, j, Blk(bp, n), u);
        LiveRemove(live, size, base, bp, u);
        if bp <= u < bp + n {
          LiveHas(live, bp, u);
        }
      }
      forall a | a in live && a != bp
        ensures !OnList(free, a)
      {
        LiveNotFree(a);
      }
      Release(bp);
      live := live - {bp};
    }

    /** An allocated block's header is not a list entry. */
    lemma LiveNotFree(a: int)
      requires Valid() && ListOk() && a in live
      ensures a in heap && !OnList(free, a)
    {
      LiveHas(live, a, a);
      forall i | 0 <= i < |free|
        ensures free[i].addr != a
      {
        assert i > 0 ==> FreeUnit(free, free[i].addr);
      }
    }

    /** free(), for the block whose header is at bp and which overlaps no free block. */
    method Release(bp: int)
      requires ListOk() && base < bp && bp in size && size[bp] >= 1
      requires forall i :: 0 <= i < |free| ==> free[i].End() <= bp || bp + size[bp] <= free[i].addr
      modifies this`freep, this`ptr, this`size, this`free
      ensures ListOk() && free == Insert(old(free), Position(old(free), bp), Blk(bp, old(size)[bp]))
      ensures freep == old(free)[Position(old(free), bp)].addr >= base
      ensures forall a :: a in old(size) && a != bp && !OnList(old(free), a)
                ==> a in size && size[a] == old(size)[a]
    {
      ghost var j := Position(free, bp);
      PositionFits(free, base, Blk(bp, size[bp]));
      if j > 0 {
        Ascending(free, base, 0, 0, 0, j);
      }
      var p := FindPlace(bp);
      Splice(p, bp, j);
      freep := p;
    }

    /** free()'s search, from freep round the ring. */
    method FindPlace(bp: int) returns (p: int)
      requires ListOk() && base < bp && forall k :: 0 <= k < |free| ==> free[k].addr != bp
      ensures p == free[Position(free, bp)].addr
    {
      hide Ordered;
      ghost var n, j := |free|, Position(free, bp);
      p := freep;
      ghost var i :| 0 <= i < n && free[i].addr == p;
      assert LinkAt(free, ptr, size, i);
      StopsAtPosition(free, base, bp, i);
      while !(bp > p && bp < ptr[p])
        invariant 0 <= i < n && p == free[i].addr && LinkAt(free, ptr, size, i)
        invariant i == j <==> (p < bp < ptr[p]) || (p >= ptr[p] && (bp > p || bp < ptr[p]))
        decreases Distance(n, i, j)
      {
        if p >= ptr[p] && (bp > p || bp < ptr[p]) {
          break;
        }
        p := ptr[p];
        i := NextIndex(n, i);
        assert LinkAt(free, ptr, size, i);
        StopsAtPosition(free, base, bp, i);
      }
    }

    /** The assignments after the search: merge upwards, then downwards. */
    method Splice(p: int, bp: int, ghost j: nat)
      requires 0 < base < bp && Ordered(free, base) && Linked(free, ptr, size) && bp in size && size[bp] >= 1
      requires Fits(free, j, Blk(bp, size[bp])) && p == free[j].addr
      modifies this`ptr, this`size, this`free
      ensures Ordered(free, base) && Linked(free, ptr, size) && free == Insert(old(free), j, Blk(bp, old(size)[bp]))
      ensures j < |free| && free[j].addr == p
      ensures forall a :: a in old(size) && a != bp && a != p ==> a in size && size[a] == old(size)[a]
    {
      hide OrderedBut, Linked, MergeAt, Plain;
      ghost var bs, b, ptr0, size0 := free, Blk(bp, size[bp]), ptr, size;
      InsertOrdered(bs, base, j, b);
      InsertFirst(bs, base, j, b);
      InsertSteps(bs, base, j, b, ptr, size);
      if bp + size[bp] == ptr[p] {
        size := size[bp := size[bp] + size[ptr[p]]];
        ptr := ptr[bp := ptr[ptr[p]]];
      } else {
        ptr := ptr[bp := ptr[p]];
      }
      if p + size[p] == bp {
        size := size[p := size[p] + size[bp]];
        ptr := ptr[p := ptr[bp]];
      } else {
        ptr := ptr[p := bp];
      }
      free := Insert(bs, j, b);
      assert ptr == SplicedPtr(bs, j, b, ptr0, size0) && size == SplicedSize(bs, j, b, ptr0, size0);
    }
  }
}
