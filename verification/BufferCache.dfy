/** The buffer cache: NBUF buffers on an intrusive doubly linked list, most recently released
    first. Pointers are indices into the buffer array; index HEAD is the list head. */
module BufferCache {
  import opened Basics
  import opened Blocks
  import opened RedoLog
  import Counting

  const NBUF: nat := 3 * MAXOPBLOCKS
  const HEAD: nat := NBUF
  const ROOTDEV: nat := 1

  datatype Buf = Buf(
    dev: nat, blockno: nat, valid: bool, dirty: bool, locked: bool, refcnt: nat,
    prev: nat, next: nat, data: Block)
  {
    predicate Caches(b: int) {
      dev == ROOTDEV && blockno == b
    }

    predicate Reusable() {
      refcnt == 0 && !dirty
    }
  }

  // ---- the list ----

  /** Equal except for the list links. */
  predicate SameCore(f: Buf, h: Buf) {
    && f.dev == h.dev && f.blockno == h.blockno && f.valid == h.valid && f.dirty == h.dirty
    && f.locked == h.locked && f.refcnt == h.refcnt && f.data == h.data
  }

  /** The i-th entry of the ring that starts and ends at the head. */
  function RingAt(order: seq<nat>, i: int): nat {
    if 1 <= i <= |order| then order[i - 1] else HEAD
  }

  predicate LinkAt(bs: seq<Buf>, order: seq<nat>, i: int) {
    var a, b := RingAt(order, i), RingAt(order, i + 1);
    a < |bs| && b < |bs| && bs[a].next == b && bs[b].prev == a
  }

  ghost predicate Entries(order: seq<nat>) {
    Counting.Distinct(order) && Counting.Below(order, NBUF)
  }

  /** The next pointers walk from the head through `order` and back, the prev pointers the
      other way. */
  ghost predicate Linked(bs: seq<Buf>, order: seq<nat>) {
    && |bs| == NBUF + 1
    && Entries(order)
    && forall i :: 0 <= i <= |order| ==> LinkAt(bs, order, i)
  }

  /** b->next->prev = b->prev; b->prev->next = b->next */
  function Unlink(bs: seq<Buf>, b: nat): (r: seq<Buf>)
    requires b < |bs| && bs[b].next < |bs| && bs[b].prev < |bs|
    ensures |r| == |bs| && forall j :: 0 <= j < |bs| ==> SameCore(bs[j], r[j])
  {
    var n, p := bs[b].next, bs[b].prev;
    var bs1 := bs[n := bs[n].(prev := p)];
    bs1[p := bs1[p].(next := n)]
  }

  /** Insert b right after the head. */
  function PushFront(bs: seq<Buf>, b: nat): (r: seq<Buf>)
    requires b < |bs| == NBUF + 1 && bs[HEAD].next < |bs|
    ensures |r| == |bs| && forall j :: 0 <= j < |bs| ==> SameCore(bs[j], r[j])
  {
    var n := bs[HEAD].next;
    var bs1 := bs[b := bs[b].(next := n, prev := HEAD)];
    var bs2 := bs1[n := bs1[n].(prev := b)];
    bs2[HEAD := bs2[HEAD].(next := b)]
  }

  lemma PushFrontLinked(bs: seq<Buf>, order: seq<nat>, b: nat)
    requires Linked(bs, order) && b < NBUF && b !in order
    ensures bs[HEAD].next < |bs| && Linked(PushFront(bs, b), [b] + order)
  {
    assert LinkAt(bs, order, 0);
    var r, o := PushFront(bs, b), [b] + order;
    assert Entries(o);
    forall i | 0 <= i <= |o|
      ensures LinkAt(r, o, i)
    {
      if i >= 1 {
        assert LinkAt(bs, order, i - 1);
        assert RingAt(o, i + 1) == RingAt(order, i);
        assert i >= 2 ==> RingAt(o, i) == RingAt(order, i - 1);
      }
    }
  }

  function Without(order: seq<nat>, k: nat): (r: seq<nat>)
    requires k < |order|
  {
    order[..k] + order[k + 1..]
  }

  lemma WithoutEntries(order: seq<nat>, k: nat)
    requires Entries(order) && k < |order|
    ensures Entries(Without(order, k)) && order[k] !in Without(order, k)
  {
    var o := Without(order, k);
    assert forall i :: 0 <= i < |o| ==> o[i] == order[if i < k then i else i + 1];
  }

  lemma WithoutRing(order: seq<nat>, k: nat, i: int)
    requires k < |order| && 0 <= i <= |order|
    ensures RingAt(Without(order, k), i) == RingAt(order, if i <= k then i else i + 1)
  {
  }

  lemma RingDistinct(order: seq<nat>, i: int, j: int)
    requires Entries(order) && 0 <= i <= |order| && 0 <= j <= |order| + 1
    ensures RingAt(order, i) == RingAt(order, j) <==> i == j || (i == 0 && j == |order| + 1)
  {
  }

  lemma UnlinkLinkAt(bs: seq<Buf>, order: seq<nat>, k: nat, i: int)
    requires Entries(order) && k < |order| && 0 <= i < |order|
    requires LinkAt(bs, order, k) && LinkAt(bs, order, k + 1) && LinkAt(bs, order, if i <= k then i else i + 1)
    ensures LinkAt(Unlink(bs, order[k]), Without(order, k), i)
  {
    hide SameCore, Without, Entries;
    WithoutRing(order, k, i);
    WithoutRing(order, k, i + 1);
    var j := if i <= k then i else i + 1;
    RingDistinct(order, k, j);
    RingDistinct(order, if k + 2 == |order| + 1 then 0 else k + 2, if i < k then i + 1 else i + 2);
  }

  lemma UnlinkLinked(bs: seq<Buf>, order: seq<nat>, k: nat)
    requires Linked(bs, order) && k < |order|
    ensures bs[order[k]].next < |bs| && bs[order[k]].prev < |bs|
    ensures Linked(Unlink(bs, order[k]), Without(order, k))
    ensures order[k] !in Without(order, k)
  {
    WithoutEntries(order, k);
    assert LinkAt(bs, order, k) && LinkAt(bs, order, k + 1);
    var r, o := Unlink(bs, order[k]), Without(order, k);
    hide SameCore, Unlink, Entries;
    forall i | 0 <= i <= |o|
      ensures LinkAt(r, o, i)
    {
      assert LinkAt(bs, order, if i <= k then i else i + 1);
      UnlinkLinkAt(bs, order, k, i);
    }
  }

  /** The buffers met by following `next` (or `prev`) from entry `b` until the head. */
  function Walk(bs: seq<Buf>, b: nat, forward: bool, fuel: nat): (r: seq<nat>)
    decreases fuel
  {
    if fuel == 0 || b >= |bs| || b == HEAD then []
    else [b] + Walk(bs, if forward then bs[b].next else bs[b].prev, forward, fuel - 1)
  }

  lemma {:induction false} WalkForward(bs: seq<Buf>, order: seq<nat>, i: nat, fuel: nat)
    requires Linked(bs, order) && i <= |order| <= fuel + i
    ensures Walk(bs, RingAt(order, i + 1), true, fuel) == order[i..]
    decreases |order| - i
  {
    if i < |order| {
      assert LinkAt(bs, order, i + 1);
      WalkForward(bs, order, i + 1, fuel - 1);
    }
  }

  lemma {:induction false} WalkBackward(bs: seq<Buf>, order: seq<nat>, i: nat, fuel: nat)
    requires Linked(bs, order) && i <= |order| && i <= fuel
    ensures Walk(bs, RingAt(order, i), false, fuel) == Reversed(order[..i])
    decreases i
  {
    if i > 0 {
      assert LinkAt(bs, order, i - 1);
      WalkBackward(bs, order, i - 1, fuel - 1);
      assert order[..i][..i - 1] == order[..i - 1];
    }
  }

  function Reversed(s: seq<nat>): (r: seq<nat>) {
    if s == [] then [] else [s[|s| - 1]] + Reversed(s[..|s| - 1])
  }

  /** Walking the list from the head by `next` and by `prev` gives reverse sequences, each
      naming every buffer once. */
  lemma WalksAreReverses(bs: seq<Buf>, order: seq<nat>)
    requires Linked(bs, order) && |order| == NBUF
    ensures bs[HEAD].next <= HEAD && bs[HEAD].prev <= HEAD
    ensures Walk(bs, bs[HEAD].prev, false, NBUF) == Reversed(Walk(bs, bs[HEAD].next, true, NBUF))
    ensures forall b :: 0 <= b < NBUF ==> b in Walk(bs, bs[HEAD].next, true, NBUF)
  {
    assert LinkAt(bs, order, 0) && LinkAt(bs, order, NBUF);
    WalkForward(bs, order, 0, NBUF);
    WalkBackward(bs, order, NBUF, NBUF);
    assert order[..NBUF] == order == order[0..];
    forall b | 0 <= b < NBUF
      ensures b in order
    {
      Counting.FullSequence(order, NBUF, b);
    }
  }

  // ---- the cache ----

  /** At most one buffer per block, and what each buffer may hold. `view` is the flat array of
      blocks that the cache and the disk together represent. */
  ghost predicate Coherent(bs: seq<Buf>, disk: Disk, view: Disk) {
    && |bs| == NBUF + 1 && |view| == |disk|
    && (forall i, j :: 0 <= i < j < NBUF && bs[i].dev == ROOTDEV && bs[j].dev == ROOTDEV
                       ==> bs[i].blockno != bs[j].blockno)
    && (forall i :: 0 <= i < NBUF ==> BufOk(bs[i], disk, view))
    && (forall b :: 0 <= b < |disk| ==> InCache(bs, b) || view[b] == disk[b])
  }

  ghost predicate BufOk(f: Buf, disk: Disk, view: Disk)
    requires |view| == |disk|
  {
    && (f.dirty ==> f.valid && f.dev == ROOTDEV)
    && (f.locked ==> f.refcnt > 0)
    && (f.dev == ROOTDEV ==> f.blockno < |disk|)
    && (f.dev == ROOTDEV && f.valid ==> f.data == view[f.blockno])
    && (f.dev == ROOTDEV && f.valid && !f.dirty && !f.locked ==> f.data == disk[f.blockno])
  }

  ghost predicate InCache(bs: seq<Buf>, b: nat)
    requires |bs| == NBUF + 1
  {
    exists i :: 0 <= i < NBUF && bs[i].Caches(b) && bs[i].valid
  }

  /** `stamp[i]` is the time at which buffer i's reference count last fell to zero. */
  ghost predicate RecentFirst(order: seq<nat>, stamp: seq<int>) {
    && |stamp| == NBUF && Entries(order)
    && forall i, j :: 0 <= i < j < |order| ==> stamp[order[i]] > stamp[order[j]]
  }

  ghost predicate OthersSame(bs: seq<Buf>, cs: seq<Buf>, i: nat) {
    |bs| == |cs| == NBUF + 1 && forall j :: 0 <= j < NBUF && j != i ==> SameCore(bs[j], cs[j])
  }

  /** The buffer that bget hands out for block b: the one that caches it, or a recycled one. */
  function Claimed(f: Buf, b: nat): Buf {
    if f.Caches(b) then f.(refcnt := f.refcnt + 1)
    else f.(dev := ROOTDEV, blockno := b, valid := false, dirty := false, refcnt := 1)
  }

  /** ... once its lock is held and its contents are in memory. */
  function Loaded(f: Buf, disk: Disk): Buf
    requires f.blockno < |disk|
  {
    f.(locked := true, valid := true, data := if f.valid then f.data else disk[f.blockno])
  }

  ghost predicate Uncached(bs: seq<Buf>, b: nat) {
    |bs| == NBUF + 1 && forall i :: 0 <= i < NBUF ==> !bs[i].Caches(b)
  }

  /** Which buffer bget may return: the cached one, else the reusable one released longest ago. */
  ghost predicate Choice(bs: seq<Buf>, stamp: seq<int>, b: nat, i: nat) {
    && |bs| == NBUF + 1 && |stamp| == NBUF && i < NBUF
    && (bs[i].Caches(b)
        || (Uncached(bs, b) && bs[i].Reusable()
            && forall j :: 0 <= j < NBUF && bs[j].Reusable() ==> stamp[i] <= stamp[j]))
  }

  /** What bread does to the buffers when it returns buffer i for block b. */
  ghost predicate ReadInto(bs: seq<Buf>, cs: seq<Buf>, i: nat, b: nat) {
    && i < NBUF && OthersSame(bs, cs, i)
    && (bs[i].Caches(b) || (Uncached(bs, b) && bs[i].Reusable()))
    && cs[i].Caches(b) && cs[i].valid && cs[i].locked
    && cs[i].dirty == (bs[i].Caches(b) && bs[i].dirty)
    && cs[i].refcnt == if bs[i].Caches(b) then bs[i].refcnt + 1 else 1
  }

  lemma ClaimCoherent(bs: seq<Buf>, disk: Disk, view: Disk, b: nat, i: nat)
    requires Coherent(bs, disk, view) && b < |disk| && i < NBUF
    requires bs[i].Caches(b) || (Uncached(bs, b) && bs[i].Reusable())
    ensures Coherent(bs[i := Claimed(bs[i], b)], disk, view)
  {
    var f, cs := bs[i], bs[i := Claimed(bs[i], b)];
    assert BufOk(f, disk, view) && BufOk(cs[i], disk, view);
    forall x | 0 <= x < |disk|
      ensures InCache(cs, x) || view[x] == disk[x]
    {
      if InCache(bs, x) {
        var j :| 0 <= j < NBUF && bs[j].Caches(x) && bs[j].valid;
        assert j != i || cs[i].valid || view[x] == disk[x];
        assert j != i ==> cs[j].Caches(x);
      }
    }
  }

  lemma LoadCoherent(bs: seq<Buf>, disk: Disk, view: Disk, i: nat)
    requires Coherent(bs, disk, view) && i < NBUF && bs[i].dev == ROOTDEV && bs[i].refcnt > 0
    ensures bs[i].blockno < |disk| && Coherent(bs[i := Loaded(bs[i], disk)], disk, view)
    ensures Loaded(bs[i], disk).data == view[bs[i].blockno]
  {
    assert BufOk(bs[i], disk, view);
    var b := bs[i].blockno;
    var cs := bs[i := Loaded(bs[i], disk)];
    assert !bs[i].valid ==> view[b] == disk[b] by {
      if InCache(bs, b) {
        var j :| 0 <= j < NBUF && bs[j].Caches(b) && bs[j].valid;
        assert j == i;
      }
    }
    assert BufOk(cs[i], disk, view);
    forall x | 0 <= x < |disk|
      ensures InCache(cs, x) || view[x] == disk[x]
    {
      if InCache(bs, x) {
        var j :| 0 <= j < NBUF && bs[j].Caches(x) && bs[j].valid;
        assert cs[j].Caches(x) && cs[j].valid;
      }
    }
  }

  /** Changes to the contents, flags and lock of a cached block, with matching disk and view. */
  lemma UpdateCoherent(bs: seq<Buf>, disk: Disk, view: Disk, i: nat, f: Buf, disk': Disk, view': Disk)
    requires Coherent(bs, disk, view) && i < NBUF && bs[i].dev == ROOTDEV && bs[i].valid
    requires |disk'| == |disk| && |view'| == |disk|
    requires f.dev == ROOTDEV && f.blockno == bs[i].blockno && f.valid && BufOk(f, disk', view')
    requires forall x :: 0 <= x < |disk| && x != f.blockno ==> disk'[x] == disk[x] && view'[x] == view[x]
    ensures Coherent(bs[i := f], disk', view')
  {
    var cs := bs[i := f];
    forall j | 0 <= j < NBUF
      ensures BufOk(cs[j], disk', view')
    {
      assert BufOk(bs[j], disk, view);
    }
    forall x | 0 <= x < |disk|
      ensures InCache(cs, x) || view'[x] == disk'[x]
    {
      if InCache(bs, x) {
        var j :| 0 <= j < NBUF && bs[j].Caches(x) && bs[j].valid;
        assert cs[j].Caches(x) && cs[j].valid;
      } else {
        assert !bs[i].Caches(x);
      }
    }
  }

  lemma LinksIrrelevant(bs: seq<Buf>, cs: seq<Buf>, disk: Disk, view: Disk)
    requires Coherent(bs, disk, view) && OthersSame(bs, cs, HEAD)
    ensures Coherent(cs, disk, view)
  {
    forall i | 0 <= i < NBUF
      ensures BufOk(cs[i], disk, view)
    {
      assert BufOk(bs[i], disk, view) && SameCore(bs[i], cs[i]);
    }
    forall i, j | 0 <= i < j < NBUF && cs[i].dev == ROOTDEV && cs[j].dev == ROOTDEV
      ensures cs[i].blockno != cs[j].blockno
    {
      assert SameCore(bs[i], cs[i]) && SameCore(bs[j], cs[j]);
    }
    forall x | 0 <= x < |disk|
      ensures InCache(cs, x) || view[x] == disk[x]
    {
      if InCache(bs, x) {
        var j :| 0 <= j < NBUF && bs[j].Caches(x) && bs[j].valid;
        assert SameCore(bs[j], cs[j]) && cs[j].Caches(x) && cs[j].valid;
      }
    }
  }

  lemma CoreUpdateLinked(bs: seq<Buf>, order: seq<nat>, i: nat, f: Buf)
    requires Linked(bs, order) && i < NBUF && f.prev == bs[i].prev && f.next == bs[i].next
    ensures Linked(bs[i := f], order)
  {
    var cs := bs[i := f];
    forall k | 0 <= k <= |order|
      ensures LinkAt(cs, order, k)
    {
      assert LinkAt(bs, order, k);
    }
  }

  lemma RelinkSameCores(bs: seq<Buf>, i: nat)
    requires |bs| == NBUF + 1 && i < NBUF && bs[i].next < |bs| && bs[i].prev < |bs|
    requires Unlink(bs, i)[HEAD].next < |bs|
    ensures OthersSame(bs, PushFront(Unlink(bs, i), i), HEAD)
  {
    hide Unlink, PushFront;
    var cs := Unlink(bs, i);
    var es := PushFront(cs, i);
    assert forall j :: 0 <= j < NBUF ==> SameCore(bs[j], cs[j]) && SameCore(cs[j], es[j]);
  }

  lemma FrontIsRecent(order: seq<nat>, stamp: seq<int>, clock: int, k: nat)
    requires RecentFirst(order, stamp) && |order| == NBUF && k < NBUF
    requires forall i :: 0 <= i < NBUF ==> stamp[i] < clock
    ensures RecentFirst([order[k]] + Without(order, k), stamp[order[k] := clock])
  {
  }

  predicate Unused(f: Buf) {
    f.dev == 0 && !f.dirty && !f.locked && f.refcnt == 0
  }

  lemma StartsCoherent(bs: seq<Buf>, d: Disk)
    requires |bs| == NBUF + 1 && forall i :: 0 <= i < NBUF ==> Unused(bs[i])
    ensures Coherent(bs, d, d)
  {
  }

  class Bcache {
    const buf: array<Buf>
    var disk: Disk
    ghost var view: Disk
    ghost var order: seq<nat>
    ghost var stamp: seq<int>
    ghost var clock: int
    ghost var writes: seq<Write>

    ghost predicate Valid()
      reads this, buf
    {
      && buf.Length == NBUF + 1 && |view| == |disk|
      && Linked(buf[..], order) && |order| == NBUF
      && Coherent(buf[..], disk, view)
      && |stamp| == NBUF && RecentFirst(order, stamp)
      && (forall i :: 0 <= i < NBUF ==> stamp[i] < clock)
    }

    /** binit, over zeroed memory and a disk. */
    constructor (d: Disk)
      ensures Valid() && disk == d && view == d && writes == [] && fresh(buf)
      ensures forall i :: 0 <= i < NBUF ==> buf[i].Reusable() && !buf[i].locked && buf[i].dev != ROOTDEV
    {
      var zero := Buf(0, 0, false, false, false, 0, 0, 0, ZeroBlock());
      buf := new Buf[NBUF + 1](_ => zero);
      disk, view, order, writes := d, d, [], [];
      stamp, clock := seq(NBUF, i => i), NBUF;
      new;
      buf[HEAD] := buf[HEAD].(prev := HEAD);
      buf[HEAD] := buf[HEAD].(next := HEAD);
      assert LinkAt(buf[..], order, 0);
      LinkAll();
      StartsCoherent(buf[..], d);
    }

    /** binit's loop. */
    method LinkAll()
      requires buf.Length == NBUF + 1 && Linked(buf[..], order) && order == []
      requires forall i :: 0 <= i <= NBUF ==> Unused(buf[i])
      modifies buf, this`order
      ensures Linked(buf[..], order) && |order| == NBUF
      ensures forall i :: 0 <= i < NBUF ==> order[i] == NBUF - 1 - i
      ensures forall i :: 0 <= i <= NBUF ==> Unused(buf[i])
    {
      hide Linked, LinkAt, PushFront;
      for b := 0 to NBUF
        invariant Linked(buf[..], order) && |order| == b
        invariant forall i :: 0 <= i < b ==> order[i] == b - 1 - i
        invariant forall i :: 0 <= i <= NBUF ==> Unused(buf[i])
      {
        PushFrontLinked(buf[..], order, b);
        InsertAtHead(b);
        order := [b] + order;
      }
    }

    method InsertAtHead(b: nat)
      requires buf.Length == NBUF + 1 && b < NBUF && buf[HEAD].next < buf.Length
      modifies buf
      ensures buf[..] == PushFront(old(buf[..]), b)
    {
      hide SameCore;
      buf[b] := buf[b].(next := buf[HEAD].next);
      buf[b] := buf[b].(prev := HEAD);
      var n := buf[HEAD].next;
      buf[n] := buf[n].(prev := b);
      buf[HEAD] := buf[HEAD].(next := b);
    }

    /** The critical section of bget. None is the panic "bget: no buffers". */
    method Bget(b: nat) returns (r: Option<nat>)
      requires Valid() && b < |disk|
      modifies buf
      ensures Valid()
      ensures r.Some? ==>
                && Choice(old(buf[..]), stamp, b, r.value)
                && buf[..] == old(buf[..])[r.value := Claimed(old(buf[..])[r.value], b)]
      ensures r.None? ==> buf[..] == old(buf[..]) && Uncached(buf[..], b)
                          && forall i :: 0 <= i < NBUF ==> !buf[i].Reusable()
    {
      ghost var bs := buf[..];
      assert LinkAt(bs, order, 0) && LinkAt(bs, order, NBUF);
      var i := buf[HEAD].next;
      ghost var k := 0;
      while i != HEAD
        invariant 0 <= k <= NBUF && i == RingAt(order, k + 1)
        invariant buf[..] == bs
        invariant forall m :: 0 <= m < k ==> !bs[order[m]].Caches(b)
        decreases NBUF - k
      {
        assert LinkAt(bs, order, k + 1);
        if buf[i].dev == ROOTDEV && buf[i].blockno == b {
          Claim(b, i);
          return Some(i);
        }
        i := buf[i].next;
        k := k + 1;
      }
      assert Uncached(bs, b) by {
        forall j | 0 <= j < NBUF
          ensures !bs[j].Caches(b)
        {
          Counting.FullSequence(order, NBUF, j);
        }
      }

      i := buf[HEAD].prev;
      k := NBUF;
      while i != HEAD
        invariant 0 <= k <= NBUF && i == RingAt(order, k)
        invariant buf[..] == bs
        invariant forall m :: k <= m < NBUF ==> !bs[order[m]].Reusable()
        decreases k
      {
        assert LinkAt(bs, order, k - 1);
        if buf[i].refcnt == 0 && !buf[i].dirty {
          forall j | 0 <= j < NBUF && bs[j].Reusable()
            ensures stamp[i] <= stamp[j]
          {
            Counting.FullSequence(order, NBUF, j);
          }
          Claim(b, i);
          return Some(i);
        }
        i := buf[i].prev;
        k := k - 1;
      }
      forall j | 0 <= j < NBUF
        ensures !buf[j].Reusable()
      {
        Counting.FullSequence(order, NBUF, j);
      }
      return None;
    }

    /** b->refcnt++ for a cached block, or the recycling assignments. */
    method Claim(b: nat, i: nat)
      requires Valid() && b < |disk| && i < NBUF
      requires buf[i].Caches(b) || (Uncached(buf[..], b) && buf[i].Reusable())
      modifies buf
      ensures Valid() && buf[..] == old(buf[..])[i := Claimed(old(buf[i]), b)]
    {
      ClaimCoherent(buf[..], disk, view, b, i);
      CoreUpdateLinked(buf[..], order, i, Claimed(buf[i], b));
      if buf[i].dev == ROOTDEV && buf[i].blockno == b {
        buf[i] := buf[i].(refcnt := buf[i].refcnt + 1);
      } else {
        buf[i] := buf[i].(dev := ROOTDEV, blockno := b);
        buf[i] := buf[i].(valid := false, dirty := false);
        buf[i] := buf[i].(refcnt := 1);
      }
      assert buf[..] == old(buf[..])[i := Claimed(old(buf[i]), b)];
    }

    /** bread, for a block whose buffer no other process has locked: the buffer returned holds the
        last contents written to that block. */
    method Bread(b: nat) returns (r: Option<nat>)
      requires Valid() && b < |disk|
      requires forall i :: 0 <= i < NBUF && buf[i].Caches(b) ==> !buf[i].locked
      modifies buf
      ensures Valid()
      ensures r.Some? ==>
                && Choice(old(buf[..]), stamp, b, r.value)
                && ReadInto(old(buf[..]), buf[..], r.value, b)
                && buf[r.value].data == view[b]
      ensures r.None? ==> buf[..] == old(buf[..]) && Uncached(buf[..], b)
                          && forall i :: 0 <= i < NBUF ==> !buf[i].Reusable()
    {
      r := Bget(b);
      if r.Some? {
        var i := r.value;
        LoadCoherent(buf[..], disk, view, i);
        CoreUpdateLinked(buf[..], order, i, Loaded(buf[i], disk));
        ghost var cs := buf[..][i := Loaded(buf[i], disk)];
        buf[i] := buf[i].(locked := true);
        if !buf[i].valid {
          buf[i] := buf[i].(data := disk[b]);
          buf[i] := buf[i].(valid := true);
        }
        assert buf[..] == cs;
      }
    }

    /** The holder of buffer i changes its data, as memmove into b->data does. */
    method Store(i: nat, data: Block)
      requires Valid() && i < NBUF && buf[i].dev == ROOTDEV && buf[i].valid && buf[i].locked
      modifies this`view, buf
      ensures Valid()
      ensures buf[..] == old(buf[..])[i := old(buf[i]).(data := data)]
      ensures buf[i].blockno < |disk| && view == old(view)[buf[i].blockno := data]
    {
      assert BufOk(buf[i], disk, view);
      ghost var view' := view[buf[i].blockno := data];
      UpdateCoherent(buf[..], disk, view, i, buf[i].(data := data), disk, view');
      CoreUpdateLinked(buf[..], order, i, buf[i].(data := data));
      buf[i] := buf[i].(data := data);
      view := view';
      assert buf[..] == old(buf[..])[i := old(buf[i]).(data := data)];
    }

    /** b->flags |= B_DIRTY, by which log_write pins a buffer. */
    method Pin(i: nat)
      requires Valid() && i < NBUF && buf[i].dev == ROOTDEV && buf[i].valid && buf[i].locked
      modifies buf
      ensures Valid() && buf[..] == old(buf[..])[i := old(buf[i]).(dirty := true)]
    {
      assert BufOk(buf[i], disk, view);
      UpdateCoherent(buf[..], disk, view, i, buf[i].(dirty := true), disk, view);
      CoreUpdateLinked(buf[..], order, i, buf[i].(dirty := true));
      buf[i] := buf[i].(dirty := true);
      assert buf[..] == old(buf[..])[i := old(buf[i]).(dirty := true)];
    }

    /** bwrite: the block reaches the disk in one step and the buffer is clean afterwards. */
    method Bwrite(i: nat)
      requires Valid() && i < NBUF && buf[i].dev == ROOTDEV && buf[i].valid && buf[i].locked
      modifies this`disk, this`writes, buf
      ensures Valid()
      ensures buf[..] == old(buf[..])[i := old(buf[i]).(dirty := false)]
      ensures buf[i].blockno < |old(disk)| && disk == old(disk)[buf[i].blockno := buf[i].data]
      ensures writes == old(writes) + [Write(buf[i].blockno, buf[i].data)]
    {
      assert BufOk(buf[i], disk, view);
      var b := buf[i].blockno;
      ghost var disk' := disk[b := buf[i].data];
      UpdateCoherent(buf[..], disk, view, i, buf[i].(dirty := false), disk', view);
      CoreUpdateLinked(buf[..], order, i, buf[i].(dirty := false));
      buf[i] := buf[i].(dirty := true);
      disk := disk[b := buf[i].data];
      writes := writes + [Write(b, buf[i].data)];
      buf[i] := buf[i].(dirty := false);
      assert buf[..] == old(buf[..])[i := old(buf[i]).(dirty := false)];
    }

    /** brelse: unlock, drop the reference, and when it was the last one move the buffer to the
        front of the list. A holder that changed the data has logged or written it by then. */
    method Brelse(i: nat)
      requires Valid() && i < NBUF && buf[i].dev == ROOTDEV && buf[i].valid && buf[i].locked
      requires buf[i].blockno < |disk| && (buf[i].dirty || buf[i].data == disk[buf[i].blockno])
      modifies this`order, this`stamp, this`clock, buf
      ensures Valid()
      ensures OthersSame(old(buf[..]), buf[..], i)
      ensures SameCore(old(buf[i]).(locked := false, refcnt := old(buf[i]).refcnt - 1), buf[i])
      ensures buf[i].refcnt > 0 ==> order == old(order) && stamp == old(stamp)
      ensures buf[i].refcnt == 0 ==>
                && order[0] == i && stamp[i] == old(clock)
                && (exists k :: 0 <= k < NBUF && order == [i] + Without(old(order), k) && old(order)[k] == i)
                && forall j :: 0 <= j < NBUF && j != i ==> stamp[j] == old(stamp)[j]
    {
      assert BufOk(buf[i], disk, view);
      ghost var f := buf[i].(locked := false, refcnt := buf[i].refcnt - 1);
      UpdateCoherent(buf[..], disk, view, i, f, disk, view);
      CoreUpdateLinked(buf[..], order, i, f);
      buf[i] := buf[i].(locked := false);
      buf[i] := buf[i].(refcnt := buf[i].refcnt - 1);
      assert buf[..] == old(buf[..])[i := f];
      if buf[i].refcnt == 0 {
        MoveToFront(i);
      }
    }

    method MoveToFront(i: nat)
      requires Valid() && i < NBUF
      modifies this`order, this`stamp, this`clock, buf
      ensures Valid()
      ensures OthersSame(old(buf[..]), buf[..], HEAD)
      ensures order[0] == i && stamp == old(stamp)[i := old(clock)]
      ensures exists k :: 0 <= k < NBUF && order == [i] + Without(old(order), k) && old(order)[k] == i
    {
      hide Coherent, RecentFirst, Unlink, PushFront, OthersSame;
      Counting.FullSequence(order, NBUF, i);
      ghost var k :| 0 <= k < NBUF && order[k] == i;
      ghost var bs := buf[..];
      UnlinkLinked(bs, order, k);
      PushFrontLinked(Unlink(bs, i), Without(order, k), i);
      RelinkSameCores(bs, i);
      LinksIrrelevant(bs, PushFront(Unlink(bs, i), i), disk, view);
      FrontIsRecent(order, stamp, clock, k);
      Detach(i);
      InsertAtHead(i);
      order := [i] + Without(order, k);
      stamp := stamp[i := clock];
      clock := clock + 1;
    }

    method Detach(i: nat)
      requires buf.Length == NBUF + 1 && i < NBUF && buf[i].next < buf.Length && buf[i].prev < buf.Length
      modifies buf
      ensures buf[..] == Unlink(old(buf[..]), i)
    {
      var n, p := buf[i].next, buf[i].prev;
      buf[n] := buf[n].(prev := p);
      buf[p] := buf[p].(next := n);
    }
  }
}
