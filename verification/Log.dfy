/** log.c on top of the buffer cache: every disk write of commit and of recovery goes through
    bread/bwrite/brelse, and the writes issued are exactly those of RedoLog. */
module Log {
  import opened Basics
  import opened Blocks
  import opened RedoLog
  import opened BufferCache
  import Counting

  /** The blocks pinned in the cache. */
  ghost function Pinned(bs: seq<Buf>): set<nat>
    requires |bs| == NBUF + 1
  {
    set i | 0 <= i < NBUF && bs[i].dirty :: bs[i].blockno
  }

  /** A buffer that is not pinned holds what is on disk, also while a reader has it locked. */
  predicate OnDisk(f: Buf, disk: Disk) {
    f.dev == ROOTDEV && f.valid && !f.dirty ==> f.blockno < |disk| && f.data == disk[f.blockno]
  }

  /** No call is changing a buffer, and nobody has a buffer of the blocks `s` locked. */
  ghost predicate Idle(bs: seq<Buf>, disk: Disk, s: set<nat>) {
    && |bs| == NBUF + 1
    && forall i :: 0 <= i < NBUF ==>
         OnDisk(bs[i], disk) && (bs[i].dev == ROOTDEV && bs[i].blockno in s ==> !bs[i].locked)
  }

  /** No process holds a reference to a buffer. */
  ghost predicate Quiet(bs: seq<Buf>) {
    |bs| == NBUF + 1 && forall i :: 0 <= i < NBUF ==> bs[i].refcnt == 0
  }

  /** A block that no buffer pins reads the same as the disk. */
  lemma UnpinnedIsOnDisk(bs: seq<Buf>, disk: Disk, view: Disk, s: set<nat>, b: nat)
    requires Coherent(bs, disk, view) && Idle(bs, disk, s) && b < |disk| && b !in Pinned(bs)
    ensures view[b] == disk[b]
  {
    if InCache(bs, b) {
      var i :| 0 <= i < NBUF && bs[i].Caches(b) && bs[i].valid;
      assert BufOk(bs[i], disk, view) && OnDisk(bs[i], disk);
    }
  }

  /** With fewer than NBUF pinned blocks, some buffer is not pinned. */
  lemma SomeUnpinned(bs: seq<Buf>, disk: Disk, view: Disk)
    requires Coherent(bs, disk, view) && |Pinned(bs)| < NBUF
    ensures exists i :: 0 <= i < NBUF && !bs[i].dirty
  {
    if forall i :: 0 <= i < NBUF ==> bs[i].dirty {
      var s := seq<nat>(NBUF, i requires 0 <= i < NBUF => bs[i].blockno);
      assert Counting.Distinct(s) by {
        assert forall i :: 0 <= i < NBUF ==> BufOk(bs[i], disk, view);
      }
      hide Coherent;
      assert forall i :: 0 <= i < NBUF ==> s[i] == bs[i].blockno;
      assert forall x :: x in Counting.Elems(s) ==> x in Pinned(bs);
      assert forall i :: 0 <= i < NBUF ==> bs[i].blockno in Counting.Elems(s);
      assert Pinned(bs) == Counting.Elems(s);
      Counting.DistinctSize(s);
    }
  }

  predicate AllPinned(bs: seq<Buf>) {
    |bs| == NBUF + 1 && forall i :: 0 <= i < NBUF ==> bs[i].dirty
  }

  /** NBUF pinned blocks take all the buffers. */
  lemma PinnedAll(bs: seq<Buf>)
    requires |bs| == NBUF + 1 && |Pinned(bs)| >= NBUF
    ensures AllPinned(bs)
  {
    assert Pinned(bs) == PinnedBelow(bs, NBUF);
    forall i | 0 <= i < NBUF
      ensures bs[i].dirty
    {
      PinnedCount(bs, i, NBUF);
    }
  }

  ghost function PinnedBelow(bs: seq<Buf>, n: nat): set<nat>
    requires n < |bs|
  {
    set k | 0 <= k < n && bs[k].dirty :: bs[k].blockno
  }

  lemma {:induction false} PinnedCount(bs: seq<Buf>, i: nat, n: nat)
    requires n < |bs| && i < |bs|
    ensures |PinnedBelow(bs, n)| <= if i < n && !bs[i].dirty then n - 1 else n
  {
    if n > 0 {
      PinnedCount(bs, i, n - 1);
      assert PinnedBelow(bs, n) == PinnedBelow(bs, n - 1) + if bs[n - 1].dirty then {bs[n - 1].blockno} else {};
    }
  }

  /** When bread finds a buffer for block b: it is cached, or some buffer can be recycled. */
  ghost predicate CanRead(bs: seq<Buf>, b: nat) {
    |bs| == NBUF + 1 && (!Uncached(bs, b) || exists i :: 0 <= i < NBUF && bs[i].Reusable())
  }

  /** With every buffer pinned, a block that is not pinned cannot be read. */
  lemma NoneToRead(bs: seq<Buf>, b: nat)
    requires AllPinned(bs) && b !in Pinned(bs)
    ensures !CanRead(bs, b)
  {
    forall i | 0 <= i < NBUF
      ensures !bs[i].Caches(b)
    {
      assert bs[i].blockno in Pinned(bs);
    }
  }

  /** With no buffer in use and fewer than NBUF pinned, every block can be read. */
  lemma AllToRead(bs: seq<Buf>, disk: Disk, view: Disk, b: nat)
    requires Coherent(bs, disk, view) && Quiet(bs) && |Pinned(bs)| < NBUF
    ensures CanRead(bs, b)
  {
    SomeUnpinned(bs, disk, view);
    var i :| 0 <= i < NBUF && !bs[i].dirty;
    assert bs[i].Reusable();
  }

  /** bread found no buffer. */
  lemma NoneRead(bs: seq<Buf>, disk: Disk, view: Disk, b: nat)
    requires Coherent(bs, disk, view) && Uncached(bs, b) && forall i :: 0 <= i < NBUF ==> !bs[i].Reusable()
    ensures !CanRead(bs, b) && !(Quiet(bs) && |Pinned(bs)| < NBUF)
  {
    if |Pinned(bs)| < NBUF {
      SomeUnpinned(bs, disk, view);
    }
  }

  ghost predicate ReadsRange(bs: seq<Buf>, lo: nat, hi: nat) {
    forall b: nat :: lo <= b < hi ==> CanRead(bs, b)
  }

  lemma DirtyPinned(bs: seq<Buf>, i: nat)
    requires |bs| == NBUF + 1 && i < NBUF
    ensures bs[i].dirty ==> bs[i].blockno in Pinned(bs)
  {
  }

  lemma ReadMeans(bs: seq<Buf>, cs: seq<Buf>, i: nat, b: nat)
    requires ReadInto(bs, cs, i, b)
    ensures CanRead(bs, b)
  {
  }

  lemma QuietEmpty(bs: seq<Buf>)
    requires |bs| == NBUF + 1
    ensures Quiet(bs) && Pinned(bs) == {} ==> |Pinned(bs)| < NBUF
  {
  }

  /** What can be read in bs can be read in cs. */
  ghost predicate KeepsReads(bs: seq<Buf>, cs: seq<Buf>) {
    forall b: nat :: CanRead(bs, b) ==> CanRead(cs, b)
  }

  ghost predicate SameReads(bs: seq<Buf>, cs: seq<Buf>) {
    KeepsReads(bs, cs) && KeepsReads(cs, bs)
  }

  lemma ReadsTrans(bs: seq<Buf>, cs: seq<Buf>, ds: seq<Buf>)
    requires KeepsReads(bs, cs) && KeepsReads(cs, ds)
    ensures KeepsReads(bs, ds)
  {
  }

  lemma ReadsSelf(bs: seq<Buf>)
    ensures SameReads(bs, bs)
  {
  }

  /** One more turn, from cs to ds: it is decided by what could be read at the start, bs. */
  lemma TurnReads(bs: seq<Buf>, cs: seq<Buf>, ds: seq<Buf>, ok: bool, log: nat)
    requires SameReads(bs, cs) && (ok <==> CanRead(cs, log)) && (ok ==> SameReads(cs, ds))
    ensures ok <==> CanRead(bs, log)
    ensures ok ==> SameReads(bs, ds)
  {
  }

  lemma StillReads(bs: seq<Buf>, cs: seq<Buf>, b: nat)
    requires KeepsReads(bs, cs)
    ensures CanRead(bs, b) ==> CanRead(cs, b)
  {
  }

  lemma NotLocked(bs: seq<Buf>, disk: Disk, s: set<nat>, b: nat)
    requires Idle(bs, disk, s) && b in s
    ensures forall i :: 0 <= i < NBUF && bs[i].Caches(b) ==> !bs[i].locked
  {
  }

  /** Reading the block of `log` locks no buffer of another block in s. */
  lemma ReadLocks(bs: seq<Buf>, cs: seq<Buf>, disk: Disk, s: set<nat>, a: nat, log: nat, home: nat)
    requires Idle(bs, disk, s) && ReadInto(bs, cs, a, log) && log != home && home in s
    ensures forall i :: 0 <= i < NBUF && cs[i].Caches(home) ==> !cs[i].locked
  {
    forall i | 0 <= i < NBUF && cs[i].Caches(home)
      ensures !cs[i].locked
    {
      assert i != a ==> SameCore(bs[i], cs[i]);
    }
  }

  /** A pinned home block stays cached while a log block is read. */
  lemma HomeStays(bs: seq<Buf>, cs: seq<Buf>, disk: Disk, view: Disk, a: nat, log: nat, home: nat)
    requires Coherent(bs, disk, view) && ReadInto(bs, cs, a, log) && log != home && home in Pinned(bs)
    ensures !Uncached(cs, home) && CanRead(cs, home)
    ensures forall c: nat, ds :: ReadInto(cs, ds, c, home) ==> bs[c].Caches(home)
  {
    var i :| 0 <= i < NBUF && bs[i].dirty && bs[i].blockno == home;
    assert BufOk(bs[i], disk, view);
    assert i != a && SameCore(bs[i], cs[i]) && cs[i].Caches(home);
  }

  /** With nothing in use or pinned there are buffers for two blocks. */
  lemma RoomForSecond(bs: seq<Buf>, cs: seq<Buf>, a: nat, log: nat, home: nat)
    requires Quiet(bs) && Pinned(bs) == {} && ReadInto(bs, cs, a, log)
    ensures CanRead(cs, home)
  {
    var i := if a == 0 then 1 else 0;
    DirtyPinned(bs, i);
    assert SameCore(bs[i], cs[i]) && cs[i].Reusable();
  }

  lemma DistinctBlocks(bs: seq<Buf>, disk: Disk, view: Disk, i: nat, j: nat)
    requires Coherent(bs, disk, view) && i < NBUF && j < NBUF && i != j && bs[i].dev == bs[j].dev == ROOTDEV
    ensures bs[i].blockno != bs[j].blockno
  {
  }

  /** A held buffer that is not pinned still agrees with the disk. */
  lemma HeldClean(bs: seq<Buf>, cs: seq<Buf>, disk: Disk, view: Disk, s: set<nat>, i: nat, b: nat)
    requires Coherent(bs, disk, view) && Idle(bs, disk, s) && Coherent(cs, disk, view) && b < |disk|
    requires Pinned(cs) == Pinned(bs) && i < NBUF && cs[i].Caches(b)
    ensures cs[i].dirty || view[b] == disk[b]
  {
    if b in Pinned(cs) {
      var j :| 0 <= j < NBUF && cs[j].dirty && cs[j].blockno == b;
      assert BufOk(cs[j], disk, view);
      assert i == j;
    } else {
      UnpinnedIsOnDisk(bs, disk, view, s, b);
    }
  }

  lemma ReadKeepsPinned(bs: seq<Buf>, cs: seq<Buf>, i: nat, b: nat)
    requires ReadInto(bs, cs, i, b)
    ensures Pinned(cs) == Pinned(bs)
  {
    forall j | 0 <= j < NBUF
      ensures bs[j].dirty == cs[j].dirty && (bs[j].dirty ==> bs[j].blockno == cs[j].blockno)
    {
      assert j != i ==> SameCore(bs[j], cs[j]);
    }
    assert forall x :: x in Pinned(bs) ==> x in Pinned(cs);
  }

  /** f before and h after bread of block b has returned this buffer. */
  ghost predicate Taken(f: Buf, h: Buf, b: nat) {
    && (f.Caches(b) || f.Reusable()) && h.Caches(b)
    && h.dirty == (f.Caches(b) && f.dirty) && h.refcnt == if f.Caches(b) then f.refcnt + 1 else 1
  }

  /** The buffers while a and c are held as well, compared with those before. */
  ghost predicate Holding(bs: seq<Buf>, cs: seq<Buf>, a: nat, c: nat, log: nat, home: nat) {
    && |bs| == |cs| == NBUF + 1 && a < NBUF && c < NBUF && a != c
    && (forall i :: 0 <= i < NBUF && i != a && i != c ==> SameCore(bs[i], cs[i]))
    && Taken(bs[a], cs[a], log) && Taken(bs[c], cs[c], home)
  }

  lemma ReadTwice(bs: seq<Buf>, cs: seq<Buf>, ds: seq<Buf>, a: nat, c: nat, log: nat, home: nat)
    requires ReadInto(bs, cs, a, log) && ReadInto(cs, ds, c, home) && log != home
    ensures Holding(bs, ds, a, c, log, home) && SameCore(cs[a], ds[a])
  {
    assert a != c;
    assert forall i :: 0 <= i < NBUF && i != a && i != c ==> SameCore(bs[i], cs[i]) && SameCore(cs[i], ds[i]);
    assert SameCore(bs[c], cs[c]) && SameCore(cs[a], ds[a]);
  }

  /** Both blocks read: a holds the log block, c the home. */
  lemma PairRead(bs: seq<Buf>, cs: seq<Buf>, ds: seq<Buf>, disk: Disk, view: Disk, s: set<nat>, a: nat, c: nat,
                 log: nat, home: nat)
    requires Coherent(bs, disk, view) && Idle(bs, disk, s) && Coherent(ds, disk, view) && log < |disk| && home < |disk|
    requires ReadInto(bs, cs, a, log) && ReadInto(cs, ds, c, home) && log != home
    ensures Holding(bs, ds, a, c, log, home) && SameCore(cs[a], ds[a]) && Pinned(ds) == Pinned(bs)
    ensures ds[a].dirty || view[log] == disk[log]
    ensures ds[c].dirty || view[home] == disk[home]
  {
    ReadTwice(bs, cs, ds, a, c, log, home);
    ReadKeepsPinned(bs, cs, a, log);
    ReadKeepsPinned(cs, ds, c, home);
    HeldClean(bs, ds, disk, view, s, a, log);
    HeldClean(bs, ds, disk, view, s, c, home);
  }

  /** The buffers after a transfer: dst written from src, both released. */
  ghost predicate Released(cs: seq<Buf>, ds: seq<Buf>, es: seq<Buf>, src: nat, dst: nat) {
    && |cs| == |ds| == |es| == NBUF + 1 && src < NBUF && dst < NBUF && src != dst
    && cs[src].refcnt > 0 && cs[dst].refcnt > 0 && ds[dst].refcnt > 0
    && OthersSame(cs[dst := cs[dst].(data := cs[src].data, dirty := false)], ds, src)
    && SameCore(cs[src].(locked := false, refcnt := cs[src].refcnt - 1), ds[src])
    && OthersSame(ds, es, dst)
    && SameCore(ds[dst].(locked := false, refcnt := ds[dst].refcnt - 1), es[dst])
  }

  lemma ReleasedAt(cs: seq<Buf>, ds: seq<Buf>, es: seq<Buf>, src: nat, dst: nat, i: nat)
    requires Released(cs, ds, es, src, dst) && i < NBUF
    ensures i != src && i != dst ==> SameCore(cs[i], es[i])
    ensures i == src ==> SameCore(cs[src].(locked := false, refcnt := cs[src].refcnt - 1), es[src])
    ensures i == dst ==>
              var f := cs[dst].(data := cs[src].data, dirty := false, locked := false, refcnt := cs[dst].refcnt - 1);
              SameCore(f, es[dst])
  {
    assert i != src ==> SameCore(cs[dst := cs[dst].(data := cs[src].data, dirty := false)][i], ds[i]);
    assert i != dst ==> SameCore(ds[i], es[i]);
  }

  lemma ReleasedPinned(cs: seq<Buf>, ds: seq<Buf>, es: seq<Buf>, src: nat, dst: nat, disk: Disk, view: Disk)
    requires Released(cs, ds, es, src, dst) && Coherent(cs, disk, view) && cs[dst].dev == ROOTDEV
    ensures Pinned(es) == Pinned(cs) - {cs[dst].blockno}
  {
    assert forall i :: 0 <= i < NBUF ==> BufOk(cs[i], disk, view);
    forall i | 0 <= i < NBUF
      ensures es[i].dirty == (cs[i].dirty && i != dst) && es[i].blockno == cs[i].blockno
    {
      ReleasedAt(cs, ds, es, src, dst, i);
    }
    assert forall x :: x in Pinned(cs) && x != cs[dst].blockno ==> x in Pinned(es);
  }

  lemma ReleaseTwice(bs: seq<Buf>, cs: seq<Buf>, ds: seq<Buf>, es: seq<Buf>, src: nat, dst: nat, a: nat, c: nat,
                     log: nat, home: nat, disk: Disk, view: Disk, s: set<nat>)
    requires Coherent(cs, disk, view) && Idle(bs, disk, s) && Released(cs, ds, es, src, dst)
    requires Holding(bs, cs, a, c, log, home) && ((src == a && dst == c) || (src == c && dst == a))
    requires cs[src].dev == ROOTDEV && cs[dst].dev == ROOTDEV && cs[src].blockno < |disk| && cs[dst].blockno < |disk|
    requires cs[src].dirty || cs[src].data == disk[cs[src].blockno]
    ensures Idle(es, disk[cs[dst].blockno := cs[src].data], s) && (Quiet(bs) ==> Quiet(es))
    ensures Pinned(es) == Pinned(cs) - {cs[dst].blockno}
  {
    ReleasedPinned(cs, ds, es, src, dst, disk, view);
    var disk' := disk[cs[dst].blockno := cs[src].data];
    forall i | 0 <= i < NBUF
      ensures OnDisk(es[i], disk') && (es[i].dev == ROOTDEV && es[i].blockno in s ==> !es[i].locked)
      ensures Quiet(bs) ==> es[i].refcnt == 0
    {
      ReleasedAt(cs, ds, es, src, dst, i);
      assert i != dst && cs[i].dev == ROOTDEV ==> cs[i].blockno != cs[dst].blockno;
      assert OnDisk(bs[i], disk);
    }
  }

  /** A transfer between a log block and its pinned home takes no buffer away: what could be read before can be
      read after it, and nothing more as long as the home stays pinned. */
  lemma TransferKeeps(bs: seq<Buf>, cs: seq<Buf>, ds: seq<Buf>, es: seq<Buf>, src: nat, dst: nat, a: nat, c: nat,
                      log: nat, home: nat, disk: Disk, view: Disk)
    requires Coherent(bs, disk, view) && Released(cs, ds, es, src, dst) && Holding(bs, cs, a, c, log, home)
    requires (src == a && dst == c) || (src == c && dst == a)
    requires home in Pinned(bs) && log !in Pinned(bs) && bs[c].Caches(home)
    ensures KeepsReads(bs, es) && (dst == a ==> KeepsReads(es, bs))
  {
    PinnedHome(bs, disk, view, c, home);
    DirtyPinned(bs, a);
    forall i | 0 <= i < NBUF
      ensures bs[i].Reusable() ==> es[i].Reusable()
      ensures dst == a && es[i].Reusable() ==> bs[i].Reusable()
      ensures forall b :: es[i].Caches(b) == bs[i].Caches(b) || (i == a && bs[a].Reusable())
    {
      ReleasedAt(cs, ds, es, src, dst, i);
    }
    hide Released, Holding, Taken, Coherent;
    ReadsCompare(bs, es, a, dst == a);
  }

  lemma ReadsCompare(bs: seq<Buf>, es: seq<Buf>, a: nat, both: bool)
    requires |bs| == |es| == NBUF + 1 && a < NBUF
    requires forall i :: 0 <= i < NBUF && bs[i].Reusable() ==> es[i].Reusable()
    requires both ==> forall i :: 0 <= i < NBUF && es[i].Reusable() ==> bs[i].Reusable()
    requires forall i, b :: 0 <= i < NBUF ==> es[i].Caches(b) == bs[i].Caches(b) || (i == a && bs[a].Reusable())
    ensures KeepsReads(bs, es) && (both ==> KeepsReads(es, bs))
  {
    forall b: nat
      ensures CanRead(bs, b) ==> CanRead(es, b)
      ensures both && CanRead(es, b) ==> CanRead(bs, b)
    {
      if bs[a].Reusable() {
        assert es[a].Reusable();
      } else {
        assert forall i :: 0 <= i < NBUF ==> es[i].Caches(b) == bs[i].Caches(b);
      }
    }
  }

  /** A pinned home is found in its own, pinned buffer. */
  lemma PinnedHome(bs: seq<Buf>, disk: Disk, view: Disk, c: nat, home: nat)
    requires Coherent(bs, disk, view) && home in Pinned(bs) && c < NBUF
    ensures bs[c].Caches(home) ==> bs[c].dirty
    ensures !Uncached(bs, home)
  {
    var i :| 0 <= i < NBUF && bs[i].dirty && bs[i].blockno == home;
    assert BufOk(bs[i], disk, view);
    assert bs[i].Caches(home);
  }

  lemma ReleaseOne(bs: seq<Buf>, cs: seq<Buf>, es: seq<Buf>, i: nat, b: nat, data: Block, disk: Disk, view: Disk,
                   s: set<nat>)
    requires Idle(bs, disk, s) && Coherent(cs, disk, view) && b < |disk| && ReadInto(bs, cs, i, b) && b !in Pinned(bs)
    requires var f := cs[i].(data := data, dirty := false);
             && OthersSame(cs[i := f], es, i)
             && SameCore(f.(locked := false, refcnt := f.refcnt - 1), es[i])
    ensures Idle(es, disk[b := data], s) && (Quiet(bs) ==> Quiet(es)) && Pinned(es) == Pinned(bs)
    ensures KeepsReads(bs, es) && KeepsReads(es, bs)
  {
    ReleaseOneKeeps(bs, cs, es, i, b, data);
    ReadKeepsPinned(bs, cs, i, b);
    var f := cs[i].(data := data, dirty := false);
    assert !cs[i].dirty;
    forall j | 0 <= j < NBUF
      ensures OnDisk(es[j], disk[b := data]) && (es[j].dev == ROOTDEV && es[j].blockno in s ==> !es[j].locked)
      ensures Quiet(bs) ==> es[j].refcnt == 0
      ensures es[j].dirty == cs[j].dirty && es[j].blockno == cs[j].blockno
    {
      assert j != i ==> SameCore(cs[i := f][j], es[j]) && SameCore(bs[j], cs[j]);
      assert j != i && cs[j].dev == ROOTDEV ==> cs[j].blockno != b;
      assert OnDisk(bs[j], disk);
    }
    assert forall x :: x in Pinned(cs) ==> x in Pinned(es);
  }

  lemma ReleaseOneKeeps(bs: seq<Buf>, cs: seq<Buf>, es: seq<Buf>, i: nat, b: nat, data: Block)
    requires ReadInto(bs, cs, i, b) && b !in Pinned(bs)
    requires var f := cs[i].(data := data, dirty := false);
             && OthersSame(cs[i := f], es, i)
             && SameCore(f.(locked := false, refcnt := f.refcnt - 1), es[i])
    ensures KeepsReads(bs, es) && KeepsReads(es, bs)
  {
    var f := cs[i].(data := data, dirty := false);
    DirtyPinned(bs, i);
    forall j | 0 <= j < NBUF
      ensures bs[j].Reusable() == es[j].Reusable()
      ensures forall x :: es[j].Caches(x) == bs[j].Caches(x) || (j == i && bs[i].Reusable())
    {
      assert j != i ==> SameCore(cs[i := f][j], es[j]) && SameCore(bs[j], cs[j]);
    }
    hide ReadInto;
    ReadsCompare(bs, es, i, true);
  }

  lemma ApplyNil(d: Disk)
    ensures Apply(d, []) == d
  {
  }

  lemma ApplySnoc(d: Disk, ws: seq<Write>, k: nat)
    requires k < |ws| && forall i :: 0 <= i < |ws| ==> ws[i].bno < |d|
    ensures Apply(d, ws[..k + 1]) == Apply(d, ws[..k])[ws[k].bno := ws[k].data]
  {
    assert ws[..k + 1][..k] == ws[..k];
  }

  /** The home to be installed next is still pinned. */
  lemma NextPinned(pins: set<nat>, lh: seq<nat>, k: nat)
    requires k < |lh| && Counting.Distinct(lh) && Counting.Elems(lh) <= pins
    ensures lh[k] in pins - Counting.Elems(lh[..k])
  {
    assert lh[k] in Counting.Elems(lh);
  }

  lemma SmallerDifference(a: set<nat>, b: set<nat>)
    ensures |a - b| <= |a|
  {
    assert a == (a - b) + (a * b);
  }

  lemma UnpinnedClean(bs: seq<Buf>, cs: seq<Buf>, i: nat, b: nat)
    requires ReadInto(bs, cs, i, b) && b !in Pinned(bs)
    ensures !cs[i].dirty
  {
    ReadKeepsPinned(bs, cs, i, b);
  }

  lemma TwoStages(d: Disk, ws: seq<Write>, m: nat, j: nat)
    requires m + j <= |ws| && forall i :: 0 <= i < |ws| ==> ws[i].bno < |d|
    ensures ws[..m] + ws[m..][..j] == ws[..m + j]
    ensures Apply(d, ws[..m + j]) == Apply(Apply(d, ws[..m]), ws[m..][..j])
  {
    hide Apply;
    var vs := ws[m..][..j];
    assert forall i :: 0 <= i < |vs| ==> vs[i] == ws[m + i];
    ApplyConcat(d, ws[..m], vs);
    assert ws[..m] + vs == ws[..m + j];
  }

  lemma WritesSnoc(w0: seq<Write>, ws: seq<Write>, k: nat)
    requires k < |ws|
    ensures w0 + ws[..k + 1] == w0 + ws[..k] + [ws[k]]
  {
  }

  /** commit's writes begin with those to the log area and then the header write. */
  lemma LogStage(g: Geometry, d: Disk, view: Disk, lh: seq<nat>)
    requires g.Fits(d) && |view| == |d| && g.Loggable(d, lh) && |lh| > 0
    ensures var n, lw, ws := |lh|, LogWrites(g, view, lh), CommitWrites(g, d, view, lh);
            && |lw| == n && |ws| > n && (forall k :: 0 <= k <= n ==> ws[..k] == lw[..k]) && ws[..n] == lw
            && ws[n] == Write(g.start, PutHeader(d[g.start], lh))
            && Apply(d, lw)[g.start] == d[g.start]
            && Apply(d, ws[..n + 1]) == Apply(d, lw)[g.start := ws[n].data]
            && SameHomes(g, Apply(view, lw), view)
  {
    hide Apply, PutHeader;
    var n, lw, ws := |lh|, LogWrites(g, view, lh), CommitWrites(g, d, view, lh);
    assert lw[..n] == lw;
    LogWritesFill(g, d, view, lh, n);
    LogWritesFill(g, view, view, lh, n);
    ApplySnoc(d, ws, n);
  }

  /** Recovery's writes are those of the installation and then the header write. */
  lemma InstallStage(g: Geometry, d: Disk)
    requires WellFormed(g, d)
    ensures var lh := HeaderBlocks(d[g.start]);
            var n, iw, ws := |lh|, InstallWrites(g, d, lh), RecoveryWrites(g, d);
            && |ws| == n + 1 && (forall k :: 0 <= k <= n ==> ws[..k] == iw[..k]) && ws[..n] == iw && ws[..n + 1] == ws
            && ws[n] == Write(g.start, PutHeader(d[g.start], []))
            && (forall i :: 0 <= i < n ==> iw[i].bno < |d|)
            && Apply(d, iw)[g.start] == d[g.start]
            && Apply(d, ws) == Apply(d, iw)[g.start := ws[n].data]
  {
    hide Apply, PutHeader, Blocks.GetWord;
    var lh := HeaderBlocks(d[g.start]);
    var n, iw, ws := |lh|, InstallWrites(g, d, lh), RecoveryWrites(g, d);
    assert iw[..n] == iw && ws[..n + 1] == ws;
    InstallKeepsLog(g, d, lh, iw);
    ApplySnoc(d, ws, n);
  }

  lemma StagesAppend(w0: seq<Write>, ws: seq<Write>, m: nat, j: nat)
    requires m + j <= |ws|
    ensures w0 + ws[..m] + ws[m..][..j] == w0 + ws[..m + j]
  {
    assert ws[..m] + ws[m..][..j] == ws[..m + j];
  }

  /** Installing the view's own contents changes nothing that reads return. */
  lemma HomesUnchanged(g: Geometry, v: Disk, u: Disk, lh: seq<nat>)
    requires SameHomes(g, u, v) && forall i :: 0 <= i < |lh| ==> lh[i] < |v|
    ensures SameHomes(g, Apply(u, HomeWrites(v, lh)), v)
  {
    forall b | 0 <= b < |v| && !g.InLog(b)
      ensures Apply(u, HomeWrites(v, lh))[b] == v[b]
    {
      HomeWritesInstall(u, v, lh, b);
    }
  }

  lemma PinAdds(bs: seq<Buf>, i: nat)
    requires |bs| == NBUF + 1 && i < NBUF
    ensures Pinned(bs[i := bs[i].(dirty := true)]) == Pinned(bs) + {bs[i].blockno}
  {
    var cs := bs[i := bs[i].(dirty := true)];
    assert cs[i].dirty && cs[i].blockno in Pinned(cs);
    forall x | x in Pinned(bs)
      ensures x in Pinned(cs)
    {
      var j :| 0 <= j < NBUF && bs[j].dirty && bs[j].blockno == x;
      assert cs[j].dirty && cs[j].blockno == x;
    }
  }

  class Logger {
    const bc: Bcache
    const g: Geometry
    const block: array<nat>
    var n: nat
    var outstanding: nat
    var committing: bool

    ghost predicate Valid()
      reads this, bc, bc.buf, block
    {
      && bc.Valid()
      && block.Length == LOGSIZE
      && g.Fits(bc.disk)
      && n <= LOGSIZE
      && g.Loggable(bc.disk, block[..n])
      && (forall b :: b in Pinned(bc.buf[..]) ==> !g.InLog(b))
    }

    /** `s` has the log area and the blocks `lh`: those whose buffers the log needs. */
    ghost predicate Covers(s: set<nat>, lh: seq<nat>) {
      (forall b :: g.InLog(b) ==> b in s) && forall i :: 0 <= i < |lh| ==> lh[i] in s
    }

    /** initlog, up to the call of recover_from_log. */
    constructor (bc: Bcache, g: Geometry)
      requires bc.Valid() && g.Fits(bc.disk) && Pinned(bc.buf[..]) == {}
      ensures Valid() && this.bc == bc && this.g == g && n == 0 && outstanding == 0 && !committing && fresh(block)
    {
      this.bc, this.g := bc, g;
      block := new nat[LOGSIZE];
      n, outstanding, committing := 0, 0, false;
    }

    /** One turn of the loops of write_log (`toLog`) and install_trans: read the log block, read
        the home block, copy one over the other, write it, release both. */
    method Transfer(log: nat, home: nat, toLog: bool, ghost s: set<nat>) returns (ok: bool)
      requires bc.Valid() && Idle(bc.buf[..], bc.disk, s)
      requires log < |bc.disk| && home < |bc.disk| && log != home && log in s && home in s
      modifies bc, bc.buf
      ensures |bc.disk| == |old(bc.disk)| == |old(bc.view)|
      ensures ok ==>
                var src, dst := if toLog then home else log, if toLog then log else home;
                && bc.Valid() && Idle(bc.buf[..], bc.disk, s)
                && bc.writes == old(bc.writes) + [Write(dst, old(bc.view)[src])]
                && bc.disk == old(bc.disk)[dst := old(bc.view)[src]]
                && bc.view == old(bc.view)[dst := old(bc.view)[src]]
                && Pinned(bc.buf[..]) == old(Pinned(bc.buf[..])) - {dst}
                && (old(Quiet(bc.buf[..])) ==> Quiet(bc.buf[..]))
      ensures !ok ==> bc.writes == old(bc.writes) && bc.disk == old(bc.disk)
      ensures old(Quiet(bc.buf[..]) && Pinned(bc.buf[..]) == {}) ==> ok
      ensures old(home in Pinned(bc.buf[..]) && log !in Pinned(bc.buf[..])) ==>
                && (ok <==> old(CanRead(bc.buf[..], log)))
                && (ok ==> KeepsReads(old(bc.buf[..]), bc.buf[..]))
                && (ok && toLog ==> KeepsReads(bc.buf[..], old(bc.buf[..])))
    {
      hide Coherent, RecentFirst, Linked, Pinned, Idle, Holding, KeepsReads, CanRead;
      var a, c := ReadPair(log, home, s);
      if a.None? || c.None? {
        return false;
      }
      var src, dst := if toLog then c.value else a.value, if toLog then a.value else c.value;
      ghost var cs := bc.buf[..];
      ghost var ds := Copy(src, dst);
      ReleaseTwice(old(bc.buf[..]), cs, ds, bc.buf[..], src, dst, a.value, c.value, log, home,
                   old(bc.disk), old(bc.view), s);
      if home in Pinned(old(bc.buf[..])) && log !in Pinned(old(bc.buf[..])) {
        TransferKeeps(old(bc.buf[..]), cs, ds, bc.buf[..], src, dst, a.value, c.value, log, home,
                      old(bc.disk), old(bc.view));
      }
      return true;
    }

    /** Copy one held buffer over another, write that one and release both; ds are the buffers in between. */
    method Copy(src: nat, dst: nat) returns (ghost ds: seq<Buf>)
      requires bc.Valid() && src != dst && HeldAny(src) && HeldAny(dst)
      modifies bc, bc.buf
      ensures bc.Valid() && Released(old(bc.buf[..]), ds, bc.buf[..], src, dst)
      ensures var b, data := old(bc.buf[dst]).blockno, old(bc.buf[src]).data;
              && b < |old(bc.disk)| == |old(bc.view)|
              && bc.disk == old(bc.disk)[b := data] && bc.view == old(bc.view)[b := data]
              && bc.writes == old(bc.writes) + [Write(b, data)]
    {
      hide Coherent, RecentFirst, Linked;
      ghost var cs := bc.buf[..];
      DistinctBlocks(cs, bc.disk, bc.view, src, dst);
      bc.Store(dst, bc.buf[src].data);
      bc.Bwrite(dst);
      assert bc.buf[..] == cs[dst := cs[dst].(data := cs[src].data, dirty := false)];
      bc.Brelse(src);
      ds := bc.buf[..];
      bc.Brelse(dst);
    }

    ghost predicate HeldAny(i: nat)
      reads bc, bc.buf
    {
      && bc.buf.Length == NBUF + 1 && i < NBUF && bc.buf[i].dev == ROOTDEV && bc.buf[i].valid && bc.buf[i].locked
      && bc.buf[i].refcnt > 0 && bc.buf[i].blockno < |bc.disk|
      && (bc.buf[i].dirty || bc.buf[i].data == bc.disk[bc.buf[i].blockno])
    }

    method ReadPair(log: nat, home: nat, ghost s: set<nat>) returns (a: Option<nat>, c: Option<nat>)
      requires bc.Valid() && Idle(bc.buf[..], bc.disk, s)
      requires log < |bc.disk| && home < |bc.disk| && log != home && log in s && home in s
      modifies bc.buf
      ensures bc.Valid() && |bc.view| == |bc.disk|
      ensures a.Some? && c.Some? ==>
                && Holding(old(bc.buf[..]), bc.buf[..], a.value, c.value, log, home)
                && Held(a.value, log) && Held(c.value, home)
                && Pinned(bc.buf[..]) == old(Pinned(bc.buf[..]))
      ensures old(Quiet(bc.buf[..]) && Pinned(bc.buf[..]) == {}) ==> a.Some? && c.Some?
      ensures old(home in Pinned(bc.buf[..])) ==> (a.Some? && c.Some? <==> old(CanRead(bc.buf[..], log)))
      ensures a.Some? && c.Some? && old(home in Pinned(bc.buf[..])) ==> old(bc.buf[..])[c.value].Caches(home)
    {
      hide Coherent, Linked, RecentFirst, Pinned, Idle, Choice, Quiet, Uncached;
      ghost var bs := bc.buf[..];
      c := None;
      NotLocked(bs, bc.disk, s, log);
      a := bc.Bread(log);
      if a.None? {
        NoneRead(bs, bc.disk, bc.view, log);
        QuietEmpty(bs);
        return;
      }
      ghost var cs := bc.buf[..];
      ReadMeans(bs, cs, a.value, log);
      if home in Pinned(bs) {
        HomeStays(bs, cs, bc.disk, bc.view, a.value, log, home);
      }
      if Quiet(bs) && Pinned(bs) == {} {
        RoomForSecond(bs, cs, a.value, log, home);
      }
      ReadLocks(bs, cs, bc.disk, s, a.value, log, home);
      c := bc.Bread(home);
      if c.None? {
        NoneRead(cs, bc.disk, bc.view, home);
        return;
      }
      PairRead(bs, cs, bc.buf[..], bc.disk, bc.view, s, a.value, c.value, log, home);
    }

    ghost predicate Held(i: nat, b: nat)
      reads bc, bc.buf
    {
      && bc.buf.Length == NBUF + 1 && i < NBUF && b < |bc.view|
      && bc.buf[i].Caches(b) && bc.buf[i].valid && bc.buf[i].locked && bc.buf[i].data == bc.view[b]
      && bc.buf[i].refcnt > 0
      && b < |bc.disk| && (bc.buf[i].dirty || bc.view[b] == bc.disk[b])
    }

    /** write_head: store n and the first n entries over the header block and write it. */
    method WriteHead(ghost s: set<nat>) returns (ok: bool)
      requires Valid() && Idle(bc.buf[..], bc.disk, s) && g.start in s
      modifies bc, bc.buf
      ensures |old(bc.disk)| == |old(bc.view)| > g.start
      ensures ok ==>
                var h := PutHeader(old(bc.disk)[g.start], block[..n]);
                && Valid() && Idle(bc.buf[..], bc.disk, s)
                && bc.writes == old(bc.writes) + [Write(g.start, h)]
                && bc.disk == old(bc.disk)[g.start := h]
                && bc.view == old(bc.view)[g.start := h]
                && Pinned(bc.buf[..]) == old(Pinned(bc.buf[..]))
                && (old(Quiet(bc.buf[..])) ==> Quiet(bc.buf[..]))
      ensures !ok ==> bc.writes == old(bc.writes) && bc.disk == old(bc.disk)
      ensures old(Quiet(bc.buf[..]) && |Pinned(bc.buf[..])| < NBUF) ==> ok
      ensures ok <==> old(CanRead(bc.buf[..], g.start))
      ensures ok ==> SameReads(old(bc.buf[..]), bc.buf[..])
    {
      hide Coherent, Linked, RecentFirst, Pinned, PutHeader, Choice, Blocks.GetWord, KeepsReads;
      ghost var bs := bc.buf[..];
      var r := bc.Bread(g.start);
      if r.None? {
        NoneRead(bs, bc.disk, bc.view, g.start);
        return false;
      }
      var i := r.value;
      ghost var cs := bc.buf[..];
      UnpinnedIsOnDisk(bs, bc.disk, bc.view, s, g.start);
      var h := FillHeader(bc.buf[i].data);
      bc.Store(i, h);
      bc.Bwrite(i);
      assert bc.buf[..] == cs[i := cs[i].(data := h, dirty := false)];
      bc.Brelse(i);
      ReleaseOne(bs, cs, bc.buf[..], i, g.start, h, old(bc.disk), old(bc.view), s);
      return true;
    }

    method FillHeader(h0: Block) returns (h: Block)
      requires block.Length == LOGSIZE && n <= LOGSIZE
      requires forall i :: 0 <= i < n ==> block[i] < WORD_LIMIT
      ensures h == PutHeader(h0, block[..n])
    {
      hide Blocks.SetWord;
      h := SetWord(h0, 0, n);
      for k := 0 to n
        invariant h == SetWords(SetWord(h0, 0, n), 1, block[..k])
      {
        assert block[..k + 1][..k] == block[..k];
        h := SetWord(h, 1 + k, block[k]);
      }
    }

    /** The first k of the writes `ws` have been made since the trace, disk and view were w0, d0 and v0. */
    ghost predicate Midway(w0: seq<Write>, d0: Disk, v0: Disk, ws: seq<Write>, k: nat)
      reads bc
    {
      && k <= |ws| && |d0| == |v0| && (forall i :: 0 <= i < |ws| ==> ws[i].bno < |d0|)
      && bc.writes == w0 + ws[..k] && bc.disk == Apply(d0, ws[..k]) && bc.view == Apply(v0, ws[..k])
    }

    lemma MidwayStart(ws: seq<Write>)
      requires |bc.disk| == |bc.view| && forall i :: 0 <= i < |ws| ==> ws[i].bno < |bc.disk|
      ensures Midway(bc.writes, bc.disk, bc.view, ws, 0)
    {
      assert ws[..0] == [];
    }

    lemma MidwayStep(w: seq<Write>, d: Disk, v: Disk, w0: seq<Write>, d0: Disk, v0: Disk, ws: seq<Write>, k: nat)
      requires k < |ws| && |d0| == |v0| && forall i :: 0 <= i < |ws| ==> ws[i].bno < |d0|
      requires w == w0 + ws[..k] && d == Apply(d0, ws[..k]) && v == Apply(v0, ws[..k])
      requires bc.writes == w + [ws[k]]
      requires bc.disk == d[ws[k].bno := ws[k].data] && bc.view == v[ws[k].bno := ws[k].data]
      ensures Midway(w0, d0, v0, ws, k + 1)
    {
      hide Apply;
      ApplySnoc(d0, ws, k);
      ApplySnoc(v0, ws, k);
    }

    /** Turn `tail` of either loop, which makes the write ws[tail]. */
    method Turn(tail: nat, toLog: bool, ghost s: set<nat>,
                ghost w0: seq<Write>, ghost d0: Disk, ghost v0: Disk, ghost ws: seq<Write>) returns (ok: bool)
      requires Valid() && Idle(bc.buf[..], bc.disk, s) && Covers(s, block[..n]) && tail < n
      requires Midway(w0, d0, v0, ws, tail) && tail < |ws| && |bc.view| == |bc.disk|
      requires var log, home := g.start + 1 + tail, block[tail];
               ws[tail] == if toLog then Write(log, bc.view[home]) else Write(home, bc.view[log])
      modifies bc, bc.buf
      ensures ok ==> Valid() && Idle(bc.buf[..], bc.disk, s) && Midway(w0, d0, v0, ws, tail + 1)
      ensures ok ==> Pinned(bc.buf[..]) == old(Pinned(bc.buf[..])) - if toLog then {} else {block[tail]}
      ensures ok && old(Quiet(bc.buf[..])) ==> Quiet(bc.buf[..])
      ensures !ok ==> bc.writes == old(bc.writes) && bc.disk == old(bc.disk)
      ensures old(Quiet(bc.buf[..]) && Pinned(bc.buf[..]) == {}) ==> ok
      ensures old(block[tail] in Pinned(bc.buf[..])) ==>
                && (ok <==> old(CanRead(bc.buf[..], g.start + 1 + tail)))
                && (ok ==> KeepsReads(old(bc.buf[..]), bc.buf[..]))
                && (ok && toLog ==> KeepsReads(bc.buf[..], old(bc.buf[..])))
    {
      hide Coherent, Linked, RecentFirst, Pinned, Apply, Idle, CanRead, KeepsReads;
      ok := Transfer(g.start + 1 + tail, block[tail], toLog, s);
      if ok {
        MidwayStep(old(bc.writes), old(bc.disk), old(bc.view), w0, d0, v0, ws, tail);
      }
    }

    /** The logged blocks are distinct, and they are the pinned ones. */
    ghost predicate PinsLog()
      requires block.Length == LOGSIZE && n <= LOGSIZE
      reads this, bc, bc.buf, block
    {
      && bc.buf.Length == NBUF + 1 && Counting.Distinct(block[..n])
      && Pinned(bc.buf[..]) == Counting.Elems(block[..n])
    }

    lemma LoggedPinned(i: nat)
      requires block.Length == LOGSIZE && i < n <= LOGSIZE && bc.buf.Length == NBUF + 1
      ensures PinsLog() ==> block[i] in Pinned(bc.buf[..])
    {
      assert block[..n][i] == block[i];
    }

    /** write_log: the cached contents of the logged blocks go to the log area, one at a time. If
        the cache runs out of buffers (the panic in bget), k writes have been made. */
    method WriteLog(ghost s: set<nat>) returns (ok: bool, ghost k: nat)
      requires Valid() && Idle(bc.buf[..], bc.disk, s) && Covers(s, block[..n])
      modifies bc, bc.buf
      ensures var ws := LogWrites(g, old(bc.view), block[..n]);
              && k <= n && |old(bc.disk)| == |old(bc.view)|
              && (forall i :: 0 <= i < n ==> ws[i].bno < |old(bc.disk)|)
              && bc.writes == old(bc.writes) + ws[..k]
              && bc.disk == Apply(old(bc.disk), ws[..k])
              && (ok ==> k == n && Valid() && Idle(bc.buf[..], bc.disk, s) && bc.view == Apply(old(bc.view), ws))
      ensures ok ==> Pinned(bc.buf[..]) == old(Pinned(bc.buf[..]))
      ensures ok && old(Quiet(bc.buf[..])) ==> Quiet(bc.buf[..])
      ensures old(PinsLog()) ==>
                && ReadsRange(old(bc.buf[..]), g.start + 1, g.start + 1 + k)
                && (!ok ==> k < n && !CanRead(old(bc.buf[..]), g.start + 1 + k))
                && (ok ==> SameReads(old(bc.buf[..]), bc.buf[..]))
    {
      hide Coherent, Linked, RecentFirst, Pinned, Apply, Idle, CanRead, KeepsReads;
      ghost var lh, bs, pins := block[..n], bc.buf[..], PinsLog();
      ghost var ws := LogWrites(g, bc.view, lh);
      MidwayStart(ws);
      ReadsSelf(bs);
      k := 0;
      for tail := 0 to n
        invariant k == tail && Valid() && Idle(bc.buf[..], bc.disk, s)
        invariant Pinned(bc.buf[..]) == old(Pinned(bc.buf[..])) && (Quiet(bs) ==> Quiet(bc.buf[..]))
        invariant pins ==> SameReads(bs, bc.buf[..]) && ReadsRange(bs, g.start + 1, g.start + 1 + tail)
        invariant Midway(old(bc.writes), old(bc.disk), old(bc.view), ws, tail)
      {
        LogWritesFill(g, old(bc.view), old(bc.view), lh, tail);
        ghost var cs := bc.buf[..];
        if pins {
          LoggedPinned(tail);
        }
        ok := Turn(tail, true, s, old(bc.writes), old(bc.disk), old(bc.view), ws);
        if pins {
          TurnReads(bs, cs, bc.buf[..], ok, g.start + 1 + tail);
        }
        if !ok {
          return;
        }
        k := k + 1;
      }
      assert ws[..n] == ws;
      ok := true;
    }

    /** install_trans: the log area goes to the homes, one block at a time. */
    method InstallTrans(ghost s: set<nat>) returns (ok: bool, ghost k: nat)
      requires Valid() && Idle(bc.buf[..], bc.disk, s) && Covers(s, block[..n])
      modifies bc, bc.buf
      ensures var ws := InstallWrites(g, old(bc.disk), block[..n]);
              && k <= n && |old(bc.disk)| == |old(bc.view)|
              && bc.writes == old(bc.writes) + ws[..k]
              && bc.disk == Apply(old(bc.disk), ws[..k])
              && (ok ==> k == n && Valid() && Idle(bc.buf[..], bc.disk, s) && bc.view == Apply(old(bc.view), ws))
      ensures ok ==> Pinned(bc.buf[..]) == old(Pinned(bc.buf[..])) - Counting.Elems(block[..n])
      ensures ok && old(Quiet(bc.buf[..])) ==> Quiet(bc.buf[..])
      ensures old(Quiet(bc.buf[..]) && Pinned(bc.buf[..]) == {}) ==> ok
      ensures old(PinsLog()) ==>
                && (ReadsRange(old(bc.buf[..]), g.start + 1, g.start + 1 + n) ==> ok)
                && (ok ==> KeepsReads(old(bc.buf[..]), bc.buf[..]))
    {
      hide Coherent, Linked, RecentFirst, Pinned, Apply, Counting.Elems, Counting.Distinct, Idle, CanRead, KeepsReads;
      ghost var bs, lh, pins := bc.buf[..], block[..n], PinsLog();
      ghost var ws := InstallWrites(g, bc.disk, lh);
      LogAreaOnDisk(s);
      assert forall i :: 0 <= i < n ==> ws[i] == Write(lh[i], bc.view[g.start + 1 + i]);
      hide InstallWrites;
      MidwayStart(ws);
      Counting.ElemsTake(lh, 0);
      ReadsSelf(bs);
      k := 0;
      for tail := 0 to n
        invariant k == tail && Valid() && Idle(bc.buf[..], bc.disk, s)
        invariant Pinned(bc.buf[..]) == Pinned(bs) - Counting.Elems(lh[..tail]) && (Quiet(bs) ==> Quiet(bc.buf[..]))
        invariant Midway(old(bc.writes), old(bc.disk), old(bc.view), ws, tail)
        invariant pins ==> KeepsReads(bs, bc.buf[..])
      {
        InstallKeepsLog(g, old(bc.view), lh, ws[..tail]);
        ghost var cs := bc.buf[..];
        if pins {
          NextPinned(Pinned(bs), lh, tail);
          StillReads(bs, cs, g.start + 1 + tail);
        }
        ok := Turn(tail, false, s, old(bc.writes), old(bc.disk), old(bc.view), ws);
        if !ok {
          return;
        }
        if pins {
          ReadsTrans(bs, cs, bc.buf[..]);
        }
        Counting.ElemsTake(lh, tail);
        k := k + 1;
      }
      assert ws[..n] == ws && lh[..n] == lh;
      ok := true;
    }

    /** No buffer pins a log block, so reading the log area reads the disk. */
    lemma LogAreaOnDisk(s: set<nat>)
      requires Valid() && Idle(bc.buf[..], bc.disk, s)
      ensures |bc.view| == |bc.disk|
      ensures forall b :: g.InLog(b) ==> bc.view[b] == bc.disk[b]
    {
      forall b | g.InLog(b)
        ensures bc.view[b] == bc.disk[b]
      {
        UnpinnedIsOnDisk(bc.buf[..], bc.disk, bc.view, s, b);
      }
    }

    /** read_head: load n and the first n entries from the header block. */
    method ReadHead(ghost s: set<nat>) returns (ok: bool)
      requires Valid() && Idle(bc.buf[..], bc.disk, s) && g.start in s && WellFormed(g, bc.disk)
      modifies this`n, block, bc.buf, bc`order, bc`stamp, bc`clock
      ensures bc.writes == old(bc.writes) && bc.disk == old(bc.disk) && bc.view == old(bc.view)
      ensures ok ==> Valid() && Idle(bc.buf[..], bc.disk, s) && block[..n] == HeaderBlocks(bc.disk[g.start])
      ensures ok ==> Pinned(bc.buf[..]) == old(Pinned(bc.buf[..]))
      ensures ok && old(Quiet(bc.buf[..])) ==> Quiet(bc.buf[..])
      ensures old(Quiet(bc.buf[..]) && |Pinned(bc.buf[..])| < NBUF) ==> ok
      ensures ok <==> old(CanRead(bc.buf[..], g.start))
      ensures ok ==> SameReads(old(bc.buf[..]), bc.buf[..])
    {
      hide Coherent, Linked, RecentFirst, Pinned, Choice, Blocks.GetWord, KeepsReads;
      ghost var bs := bc.buf[..];
      LogAreaOnDisk(s);
      var r := bc.Bread(g.start);
      if r.None? {
        NoneRead(bs, bc.disk, bc.view, g.start);
        return false;
      }
      var h := bc.buf[r.value].data;
      ghost var cs := bc.buf[..];
      n := GetWord(h, 0);
      for i := 0 to n
        invariant n == HeaderCount(h) && block[..i] == HeaderBlocks(h)[..i] && bc.buf[..] == cs
        modifies block
      {
        block[i] := GetWord(h, 1 + i);
      }
      UnpinnedClean(bs, cs, r.value, g.start);
      bc.Brelse(r.value);
      assert cs == cs[r.value := cs[r.value].(data := h, dirty := false)];
      ReleaseOne(bs, cs, bc.buf[..], r.value, g.start, h, bc.disk, bc.view, s);
      assert bc.disk[g.start := h] == bc.disk;
      return true;
    }

    /** bread finds a buffer for the header block and for the log block of every logged block. */
    ghost predicate AllReadable()
      reads this, bc, bc.buf
    {
      ReadsRange(bc.buf[..], g.start, g.start + 1 + n)
    }

    /** The common tail of recovery and commit: install what the header describes, then clear it. */
    method InstallAndClear(ghost s: set<nat>) returns (ok: bool, ghost k: nat)
      requires Valid() && Idle(bc.buf[..], bc.disk, s) && Covers(s, block[..n])
      requires WellFormed(g, bc.disk) && block[..n] == HeaderBlocks(bc.disk[g.start])
      modifies this`n, bc, bc.buf
      ensures var ws := RecoveryWrites(g, old(bc.disk));
              && k <= |ws|
              && bc.writes == old(bc.writes) + ws[..k]
              && bc.disk == Apply(old(bc.disk), ws[..k])
              && (ok ==> k == |ws| && Valid() && Idle(bc.buf[..], bc.disk, s) && n == 0)
      ensures |old(bc.view)| == |old(bc.disk)|
      ensures ok ==> SameHomes(g, bc.view, Apply(old(bc.view), InstallWrites(g, old(bc.disk), old(block[..n]))))
      ensures ok ==> Pinned(bc.buf[..]) == old(Pinned(bc.buf[..])) - Counting.Elems(old(block[..n]))
      ensures ok && old(Quiet(bc.buf[..])) ==> Quiet(bc.buf[..])
      ensures old(Quiet(bc.buf[..]) && Pinned(bc.buf[..]) == {}) ==> ok
      ensures old(PinsLog() && AllReadable()) ==> ok
    {
      hide Coherent, Linked, RecentFirst, Pinned, Apply, Blocks.GetWord, PutHeader, Counting.Elems, Idle, PinsLog,
           CanRead, KeepsReads, RecoveryWrites, InstallWrites;
      ghost var d0 := bc.disk;
      ghost var ws := RecoveryWrites(g, d0);
      InstallStage(g, d0);
      ok, k := InstallTrans(s);
      if !ok {
        return;
      }
      SmallerDifference(old(Pinned(bc.buf[..])), Counting.Elems(block[..n]));
      if old(PinsLog()) {
        StillReads(old(bc.buf[..]), bc.buf[..], g.start);
      }
      n := 0;
      ok := WriteHead(s);
      if ok {
        assert block[..n] == [];
        WritesSnoc(old(bc.writes), ws, k);
        k := k + 1;
      }
    }

    /** recover_from_log: its disk writes are a prefix of RecoveryWrites, all of them unless the
        cache runs out of buffers, which cannot happen at boot. */
    method Recover(ghost s: set<nat>) returns (ok: bool, ghost k: nat)
      requires Valid() && Idle(bc.buf[..], bc.disk, s) && WellFormed(g, bc.disk)
               && Covers(s, HeaderBlocks(bc.disk[g.start]))
      modifies this`n, block, bc, bc.buf
      ensures var ws := RecoveryWrites(g, old(bc.disk));
              && k <= |ws|
              && bc.writes == old(bc.writes) + ws[..k]
              && bc.disk == Apply(old(bc.disk), ws[..k])
              && (ok ==> k == |ws| && Valid() && Idle(bc.buf[..], bc.disk, s) && n == 0)
      ensures ok ==> bc.disk == Recovered(g, old(bc.disk)) && HeaderCount(bc.disk[g.start]) == 0
      ensures old(Quiet(bc.buf[..]) && Pinned(bc.buf[..]) == {}) ==>
                ok && Quiet(bc.buf[..]) && Pinned(bc.buf[..]) == {} && bc.view == bc.disk
    {
      hide Coherent, Linked, RecentFirst, Pinned, Apply, Blocks.GetWord, PutHeader, Counting.Elems;
      ApplyNil(bc.disk);
      k := 0;
      ok := ReadHead(s);
      if ok {
        ok, k := InstallAndClear(s);
        if ok {
          RecoveryCrash(g, old(bc.disk), k);
          assert RecoveryWrites(g, old(bc.disk))[..k] == RecoveryWrites(g, old(bc.disk));
          AllOnDisk(s);
        }
      }
    }

    /** Without pinned blocks the cache and the disk agree everywhere. */
    lemma AllOnDisk(s: set<nat>)
      requires Valid() && Idle(bc.buf[..], bc.disk, s)
      ensures Pinned(bc.buf[..]) == {} ==> bc.view == bc.disk
    {
      forall b: nat | b < |bc.disk| && Pinned(bc.buf[..]) == {}
        ensures bc.view[b] == bc.disk[b]
      {
        UnpinnedIsOnDisk(bc.buf[..], bc.disk, bc.view, s, b);
      }
    }

    /** write_log and the header write: the transaction is in the log area, nothing is installed. */
    method LogTransaction(ghost s: set<nat>) returns (ok: bool, ghost k: nat)
      requires Valid() && Idle(bc.buf[..], bc.disk, s) && Covers(s, block[..n]) && n > 0
      modifies bc, bc.buf
      ensures |old(bc.view)| == |old(bc.disk)|
      ensures var ws := CommitWrites(g, old(bc.disk), old(bc.view), block[..n]);
              && k <= n + 1
              && bc.writes == old(bc.writes) + ws[..k]
              && bc.disk == Apply(old(bc.disk), ws[..k])
              && (ok ==> k == n + 1 && Valid() && Idle(bc.buf[..], bc.disk, s) && SameHomes(g, bc.view, old(bc.view)))
      ensures ok ==> Pinned(bc.buf[..]) == old(Pinned(bc.buf[..]))
      ensures ok && old(Quiet(bc.buf[..])) ==> Quiet(bc.buf[..])
      ensures old(PinsLog()) ==>
                && (ok <==> old(AllReadable()))
                && (ok ==> SameReads(old(bc.buf[..]), bc.buf[..]))
                && (!ok ==> k <= n && Stuck(old(bc.buf[..]), k))
    {
      hide Coherent, Linked, RecentFirst, Pinned, Apply, PutHeader, Idle, PinsLog, CanRead, KeepsReads,
           CommitWrites, LogWrites;
      ghost var d0, v0, lh := bc.disk, bc.view, block[..n];
      ghost var ws := CommitWrites(g, d0, v0, lh);
      LogStage(g, d0, v0, lh);
      ok, k := WriteLog(s);
      if !ok {
        return;
      }
      if old(PinsLog()) {
        StillReads(old(bc.buf[..]), bc.buf[..], g.start);
        StillReads(bc.buf[..], old(bc.buf[..]), g.start);
      }
      ghost var cs := bc.buf[..];
      ok := WriteHead(s);
      if old(PinsLog()) {
        LogReadable(old(bc.buf[..]), ok);
        if ok {
          ReadsTrans(old(bc.buf[..]), cs, bc.buf[..]);
          ReadsTrans(bc.buf[..], cs, old(bc.buf[..]));
        }
      }
      if ok {
        WritesSnoc(old(bc.writes), ws, n);
        k := k + 1;
      }
    }

    /** After k writes to the log area bread finds no buffer for the next block, the header after the last one. */
    ghost predicate Stuck(bs: seq<Buf>, k: nat)
      reads this
    {
      && ReadsRange(bs, g.start + 1, g.start + 1 + k)
      && !CanRead(bs, if k < n then g.start + 1 + k else g.start)
    }

    lemma LogReadable(bs: seq<Buf>, ok: bool)
      requires ReadsRange(bs, g.start + 1, g.start + 1 + n) && (ok <==> CanRead(bs, g.start))
      ensures ok <==> ReadsRange(bs, g.start, g.start + 1 + n)
      ensures !ok ==> Stuck(bs, n)
    {
      hide CanRead;
    }

    lemma StillReadable(bs: seq<Buf>)
      requires KeepsReads(bs, bc.buf[..]) && ReadsRange(bs, g.start, g.start + 1 + n)
      ensures AllReadable()
    {
      hide CanRead;
    }

    /** With no buffer in use: everything can be read if fewer than NBUF blocks are logged, otherwise not even the
        first log block. */
    lemma QuietRoom()
      requires Valid() && n > 0 && Quiet(bc.buf[..]) && PinsLog()
      ensures n < NBUF ==> AllReadable()
      ensures n >= NBUF ==> !AllReadable() && forall k: nat :: Stuck(bc.buf[..], k) ==> k == 0
    {
      Counting.DistinctSize(block[..n]);
      if n < NBUF {
        forall b: nat | g.start <= b < g.start + 1 + n
          ensures CanRead(bc.buf[..], b)
        {
          AllToRead(bc.buf[..], bc.disk, bc.view, b);
        }
      } else {
        PinnedAll(bc.buf[..]);
        NoneToRead(bc.buf[..], g.start + 1);
      }
    }

    /** commit: its disk writes are a prefix of CommitWrites, so RedoLog.CommitCrash describes every
        disk it passes through; when it completes, the logged blocks are installed and what reads
        return is unchanged. It completes exactly if every log block it needs is cached or some buffer can be
        recycled, whoever else holds buffers; otherwise it stops in bget's panic before the header write. With no
        buffer in use that is exactly if fewer than NBUF blocks are logged, and it stops before any write. */
    method Commit(ghost s: set<nat>) returns (ok: bool, ghost k: nat)
      requires Valid() && Idle(bc.buf[..], bc.disk, s) && Covers(s, block[..n]) && HeaderCount(bc.disk[g.start]) == 0
      modifies this`n, bc, bc.buf
      ensures |old(bc.view)| == |old(bc.disk)|
      ensures var ws := CommitWrites(g, old(bc.disk), old(bc.view), old(block[..n]));
              && k <= |ws|
              && bc.writes == old(bc.writes) + ws[..k]
              && bc.disk == Apply(old(bc.disk), ws[..k])
              && (ok ==> k == |ws| && Valid() && Idle(bc.buf[..], bc.disk, s) && n == 0)
      ensures ok ==> && HeaderCount(bc.disk[g.start]) == 0
                     && Installed(g, old(bc.disk), old(bc.view), old(block[..n]), bc.disk)
                     && SameHomes(g, bc.view, old(bc.view))
                     && Pinned(bc.buf[..]) == old(Pinned(bc.buf[..])) - Counting.Elems(old(block[..n]))
      ensures ok && old(Quiet(bc.buf[..])) ==> Quiet(bc.buf[..])
      ensures old(PinsLog()) ==> (ok <==> old(n == 0 || AllReadable())) && (!ok ==> k <= old(n))
      ensures old(Quiet(bc.buf[..]) && PinsLog()) ==> (ok <==> old(n) < NBUF) && (!ok ==> k == 0)
    {
      hide Coherent, Linked, RecentFirst, Pinned, Apply, CommitWrites, Blocks.GetWord, PutHeader, Counting.Elems,
           CanRead, KeepsReads, ReadsRange, Idle;
      ghost var d0, v0, lh := bc.disk, bc.view, block[..n];
      ghost var ws := CommitWrites(g, d0, v0, lh);
      k := 0;
      ok := true;
      ApplyNil(d0);
      if n > 0 {
        if Quiet(bc.buf[..]) && PinsLog() {
          QuietRoom();
        }
        ok, k := LogTransaction(s);
        if !ok {
          return;
        }
        if old(PinsLog()) {
          StillReadable(old(bc.buf[..]));
        }
        CommitPoint(g, d0, v0, lh);
        HomesUnchanged(g, v0, bc.view, lh);
        ghost var j;
        ok, j := InstallAndClear(s);
        TwoStages(d0, ws, k, j);
        StagesAppend(old(bc.writes), ws, k, j);
        k := k + j;
      } else {
        Counting.ElemsTake(lh, 0);
        assert bc.writes == old(bc.writes) + ws[..0];
      }
      if ok {
        CommitCrash(g, d0, v0, lh, k);
      }
    }

    /** One turn of begin_op's loop: admitted, or asleep on the log. */
    method BeginOp() returns (admitted: bool)
      requires Valid()
      modifies this`outstanding
      ensures Valid()
      ensures admitted == (!committing && n + (old(outstanding) + 1) * MAXOPBLOCKS <= LOGSIZE)
      ensures outstanding == old(outstanding) + if admitted then 1 else 0
    {
      if committing {
        return false;
      } else if n + (outstanding + 1) * MAXOPBLOCKS > LOGSIZE {
        return false;
      } else {
        outstanding := outstanding + 1;
        return true;
      }
    }

    /** log_write on a held buffer; false is one of its two panics. */
    method LogWrite(i: nat) returns (ok: bool)
      requires Valid() && i < NBUF && bc.buf[i].dev == ROOTDEV && bc.buf[i].valid && bc.buf[i].locked
      requires bc.buf[i].blockno < |bc.disk| && !g.InLog(bc.buf[i].blockno)
      modifies this`n, block, bc.buf
      ensures ok == (old(n) < LOGSIZE && old(n) < g.size - 1 && outstanding >= 1)
      ensures Valid()
      ensures ok ==> && block[..n] == Absorb(old(block[..n]), old(bc.buf[i].blockno))
                     && bc.buf[..] == old(bc.buf[..])[i := old(bc.buf[i]).(dirty := true)]
                     && Pinned(bc.buf[..]) == old(Pinned(bc.buf[..])) + {old(bc.buf[i].blockno)}
      ensures !ok ==> n == old(n) && block[..] == old(block[..]) && bc.buf[..] == old(bc.buf[..])
    {
      hide Coherent, Linked, RecentFirst, Pinned;
      if n >= LOGSIZE || n >= g.size - 1 {
        return false;
      }
      if outstanding < 1 {
        return false;
      }
      var b := bc.buf[i].blockno;
      var k := 0;
      while k < n && block[k] != b
        invariant 0 <= k <= n && b !in block[..k]
      {
        k := k + 1;
      }
      block[k] := b;
      if k == n {
        n := n + 1;
      }
      assert block[..n] == Absorb(old(block[..n]), b);
      PinAdds(bc.buf[..], i);
      bc.Pin(i);
      return true;
    }

    /** end_op: the last outstanding call commits. A crash during it leaves a prefix of the commit's
        writes; begin_op admits nobody until `committing` is cleared. */
    method EndOp(ghost s: set<nat>) returns (ok: bool, ghost k: nat)
      requires Valid() && outstanding >= 1 && !committing
      requires outstanding == 1 ==> Idle(bc.buf[..], bc.disk, s) && Covers(s, block[..n])
                                    && HeaderCount(bc.disk[g.start]) == 0
      modifies this, bc, bc.buf
      ensures outstanding == old(outstanding) - 1
      ensures ok ==> Valid() && !committing
      ensures old(outstanding) > 1 ==> ok && n == old(n) && bc.disk == old(bc.disk) && bc.view == old(bc.view)
                                       && bc.writes == old(bc.writes) && bc.buf[..] == old(bc.buf[..])
      ensures |old(bc.view)| == |old(bc.disk)|
      ensures old(outstanding) == 1 ==>
                var ws := CommitWrites(g, old(bc.disk), old(bc.view), old(block[..n]));
                && k <= |ws|
                && bc.writes == old(bc.writes) + ws[..k]
                && bc.disk == Apply(old(bc.disk), ws[..k])
                && (ok ==> && k == |ws| && n == 0 && HeaderCount(bc.disk[g.start]) == 0
                           && Installed(g, old(bc.disk), old(bc.view), old(block[..n]), bc.disk)
                           && SameHomes(g, bc.view, old(bc.view))
                           && Idle(bc.buf[..], bc.disk, s)
                           && Pinned(bc.buf[..]) == old(Pinned(bc.buf[..])) - Counting.Elems(old(block[..n])))
      ensures ok && old(Quiet(bc.buf[..])) ==> Quiet(bc.buf[..])
      ensures old(outstanding == 1 && PinsLog()) ==> (ok <==> old(n == 0 || AllReadable())) && (!ok ==> k <= old(n))
      ensures old(outstanding == 1 && Quiet(bc.buf[..]) && PinsLog()) ==> (ok <==> old(n) < NBUF) && (!ok ==> k == 0)
    {
      hide Coherent, Linked, RecentFirst, Pinned, Apply, CommitWrites, Blocks.GetWord;
      outstanding := outstanding - 1;
      ok, k := true, 0;
      if outstanding == 0 {
        committing := true;
        ok, k := Commit(s);
        if ok {
          committing := false;
        }
      }
    }
  }
}
