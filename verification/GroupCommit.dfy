/** Concurrent file-system calls over the redo log. One step is one critical section of
    begin_op, log_write or end_op, one buffer fill or eviction, one single-block disk write of
    commit or recovery, or a crash. Runs are arbitrary interleavings of such steps. */
module GroupCommit {
  import opened Blocks
  import opened RedoLog
  import opened Counting

  type Op = nat

  datatype Event = Begin(op: Op) | Wrote(op: Op, bno: nat, data: Block) | End(op: Op)

  datatype Phase =
    | Running
    | Committing(base: Disk, view: Disk, done: nat)
    | Recovering(base: Disk, done: nat)

  /** `hist` and `durable` are history: everything the calls did since the initial disk, minus
      what a crash lost, and how much of it has been committed. `ops` maps each outstanding
      call to the distinct blocks it has logged. */
  datatype State = State(
    disk: Disk,
    cache: map<nat, Block>,
    dirty: set<nat>,
    lh: seq<nat>,
    ops: map<Op, set<nat>>,
    phase: Phase,
    hist: seq<Event>,
    durable: nat)
  {
    /** What bread returns for block `b`. */
    function View(b: nat): Block
      requires b < |disk|
    {
      if b in cache then cache[b] else disk[b]
    }

    function ViewDisk(): (v: Disk)
      ensures |v| == |disk|
    {
      seq<Block>(|disk|, b requires 0 <= b < |disk| => View(b))
    }

    /** bwrite: the block reaches the disk and its buffer stops being dirty. */
    function Put(w: Write): (s: State)
      requires w.bno < |disk|
    {
      this.(disk := disk[w.bno := w.data], cache := cache[w.bno := w.data], dirty := dirty - {w.bno})
    }
  }

  datatype Step =
    | BeginOp(op: Op)
    | LogWrite(op: Op, bno: nat, data: Block)
    | EndOp(op: Op)
    | Fill(bno: nat)
    | Evict(bno: nat)
    | DiskWrite
    | Finish
    | Crash

  // ---- histories ----

  function OpenOps(h: seq<Event>): set<Op> {
    if h == [] then {}
    else
      var r := OpenOps(h[..|h| - 1]);
      match h[|h| - 1]
      case Begin(op) => r + {op}
      case Wrote(_, _, _) => r
      case End(op) => r - {op}
  }

  function Begun(h: seq<Event>): set<Op> {
    set i | 0 <= i < |h| :: h[i].op
  }

  /** Calls write only between their own begin and end, and identifiers are not reused. */
  ghost predicate HistoryOk(g: Geometry, h: seq<Event>, size: nat) {
    h != [] ==>
      var p := h[..|h| - 1];
      && HistoryOk(g, p, size)
      && match h[|h| - 1]
         case Begin(op) => op !in Begun(p)
         case Wrote(op, b, _) => op in OpenOps(p) && b < size && !g.InLog(b)
         case End(op) => op in OpenOps(p)
  }

  /** The homes after the logged writes of `h`, applied to the initial disk in order. */
  ghost function Replay(home0: Disk, h: seq<Event>): (d: Disk)
    ensures |d| == |home0|
  {
    if h == [] then home0
    else
      var d := Replay(home0, h[..|h| - 1]);
      match h[|h| - 1]
      case Wrote(_, b, data) => if b < |d| then d[b := data] else d
      case _ => d
  }

  // ---- log_write and the space accounting ----

  /** Blocks that the outstanding calls may still log out of their MAXOPBLOCKS each. */
  ghost function Unused(ops: map<Op, set<nat>>): int {
    if ops == map[] then 0
    else
      var op :| op in ops;
      MAXOPBLOCKS - |ops[op]| + Unused(ops - {op})
  }

  // ---- steps ----

  function CommitLength(lh: seq<nat>): nat {
    if lh == [] then 0 else 2 * |lh| + 2
  }

  predicate Geometric(g: Geometry, s: State) {
    g.Fits(s.disk) && g.Loggable(s.disk, s.lh)
  }

  /** The k-th disk write of commit(), computed from the buffers as they are at that moment. */
  function CommitWrite(g: Geometry, s: State, k: nat): (w: Write)
    requires Geometric(g, s) && k < CommitLength(s.lh)
    ensures w.bno < |s.disk|
  {
    var n := |s.lh|;
    if k < n then Write(g.start + 1 + k, s.View(s.lh[k]))
    else if k == n then Write(g.start, PutHeader(s.View(g.start), s.lh))
    else if k <= 2 * n then Write(s.lh[k - n - 1], s.View(g.start + 1 + (k - n - 1)))
    else Write(g.start, PutHeader(s.View(g.start), []))
  }

  function RecoveryWrite(g: Geometry, s: State, k: nat): (w: Write)
    requires Geometric(g, s) && k <= |s.lh|
    ensures w.bno < |s.disk|
  {
    if k < |s.lh| then Write(s.lh[k], s.View(g.start + 1 + k))
    else Write(g.start, PutHeader(s.View(g.start), []))
  }

  /** The tests the code makes before it proceeds; for LogWrite also that the call stays within
      its MAXOPBLOCKS distinct blocks. */
  predicate Enabled(g: Geometry, s: State, step: Step) {
    match step
    case BeginOp(op) =>
      s.phase.Running? && op !in Begun(s.hist) && |s.lh| + (|s.ops| + 1) * MAXOPBLOCKS <= LOGSIZE
    case LogWrite(op, b, _) =>
      && s.phase.Running? && op in s.ops && b < |s.disk| && !g.InLog(b)
      && |s.ops[op] + {b}| <= MAXOPBLOCKS
      && !LogWritePanics(g, s)
    case EndOp(op) => op in s.ops
    case Fill(b) => b < |s.disk| && b !in s.cache
    case Evict(b) => b in s.cache && b !in s.dirty
    case DiskWrite =>
      && Geometric(g, s)
      && ((s.phase.Committing? && s.phase.done < CommitLength(s.lh))
          || (s.phase.Recovering? && s.phase.done <= |s.lh|))
    case Finish =>
      || (s.phase.Committing? && s.phase.done == CommitLength(s.lh))
      || (s.phase.Recovering? && s.phase.done == |s.lh| + 1)
    case Crash => g.Fits(s.disk) && HeaderCount(s.disk[g.start]) <= LOGSIZE && s.durable <= |s.hist|
  }

  predicate LogWritePanics(g: Geometry, s: State) {
    |s.lh| >= LOGSIZE || |s.lh| >= g.size - 1
  }

  function Do(g: Geometry, s: State, step: Step): (r: State)
    requires Enabled(g, s, step)
  {
    match step
    case BeginOp(op) => s.(ops := s.ops[op := {}], hist := s.hist + [Begin(op)])
    case LogWrite(op, b, data) =>
      s.(cache := s.cache[b := data], dirty := s.dirty + {b}, lh := Absorb(s.lh, b),
         ops := s.ops[op := s.ops[op] + {b}], hist := s.hist + [Wrote(op, b, data)])
    case EndOp(op) =>
      var r := s.(ops := s.ops - {op}, hist := s.hist + [End(op)]);
      if r.ops == map[] then r.(phase := Committing(s.disk, s.ViewDisk(), 0)) else r
    case Fill(b) => s.(cache := s.cache[b := s.disk[b]])
    case Evict(b) => s.(cache := s.cache - {b})
    case DiskWrite => DoDiskWrite(g, s)
    case Finish => s.(phase := Running, lh := [], durable := |s.hist|)
    case Crash =>
      State(s.disk, map[], {}, HeaderBlocks(s.disk[g.start]), map[], Recovering(s.disk, 0),
            s.hist[..s.durable], s.durable)
  }

  function DoDiskWrite(g: Geometry, s: State): (r: State)
    requires Enabled(g, s, DiskWrite)
  {
    var k := s.phase.done;
    if s.phase.Committing? then
      s.Put(CommitWrite(g, s, k)).(phase := Committing(s.phase.base, s.phase.view, k + 1),
                                   durable := if k == |s.lh| then |s.hist| else s.durable)
    else
      s.Put(RecoveryWrite(g, s, k)).(phase := Recovering(s.phase.base, k + 1))
  }

  /** Power-on with some disk left by an earlier crash: initlog runs recovery first. */
  function Boot(g: Geometry, d: Disk): (s: State)
    requires WellFormed(g, d)
  {
    State(d, map[], {}, HeaderBlocks(d[g.start]), map[], Recovering(d, 0), [], 0)
  }

  // ---- invariant ----

  ghost predicate HistoryInv(g: Geometry, size: nat, h: seq<Event>, durable: nat, open: set<Op>) {
    && durable <= |h|
    && HistoryOk(g, h, size)
    && OpenOps(h) == open
    && OpenOps(h[..durable]) == {}
  }

  ghost predicate CacheInv(disk: Disk, cache: map<nat, Block>, dirty: set<nat>, lh: seq<nat>) {
    && dirty <= cache.Keys
    && dirty <= Elems(lh)
    && (forall b :: b in cache ==> b < |disk|)
    && (forall b :: b in cache && b !in dirty ==> cache[b] == disk[b])
  }

  ghost predicate SpaceInv(lh: seq<nat>, ops: map<Op, set<nat>>) {
    && Distinct(lh)
    && (forall op :: op in ops ==> ops[op] <= Elems(lh) && |ops[op]| <= MAXOPBLOCKS)
    && |lh| + Unused(ops) <= LOGSIZE
  }

  ghost predicate RunningInv(g: Geometry, s: State, home0: Disk)
    requires Geometric(g, s) && s.durable <= |s.hist|
  {
    && SpaceInv(s.lh, s.ops)
    && Elems(s.lh) == s.dirty
    && HeaderCount(s.disk[g.start]) == 0
    && SameHomes(g, s.disk, Replay(home0, s.hist[..s.durable]))
    && SameHomes(g, s.ViewDisk(), Replay(home0, s.hist))
  }

  ghost predicate CommittingInv(g: Geometry, s: State, home0: Disk)
    requires s.phase.Committing? && Geometric(g, s) && s.durable <= |s.hist|
  {
    var base, view, k := s.phase.base, s.phase.view, s.phase.done;
    && s.ops == map[]
    && |base| == |s.disk| == |view|
    && HeaderCount(base[g.start]) == 0
    && k <= CommitLength(s.lh)
    && s.disk == Apply(base, CommitWrites(g, base, view, s.lh)[..k])
    && SameHomes(g, view, Replay(home0, s.hist))
    && SameHomes(g, s.ViewDisk(), view)
    && (forall b :: 0 <= b < |base| && !g.InLog(b) && b !in s.lh ==> view[b] == base[b])
    && (k <= |s.lh| ==> SameHomes(g, base, Replay(home0, s.hist[..s.durable])))
    && (k > |s.lh| ==> s.durable == |s.hist|)
    && s.dirty <= (if k <= |s.lh| + 1 then Elems(s.lh)
                   else if k - |s.lh| - 1 <= |s.lh| then Elems(s.lh[k - |s.lh| - 1..])
                   else {})
  }

  ghost predicate RecoveringInv(g: Geometry, s: State, home0: Disk)
    requires s.phase.Recovering?
  {
    var base, k := s.phase.base, s.phase.done;
    && s.ops == map[] && s.dirty == {}
    && |base| == |s.disk|
    && WellFormed(g, base)
    && s.lh == HeaderBlocks(base[g.start])
    && k <= |s.lh| + 1
    && s.disk == Apply(base, RecoveryWrites(g, base)[..k])
    && s.durable == |s.hist|
    && SameHomes(g, Recovered(g, base), Replay(home0, s.hist))
  }

  ghost predicate Inv(g: Geometry, s: State, home0: Disk) {
    && Geometric(g, s)
    && |home0| == |s.disk|
    && HistoryInv(g, |s.disk|, s.hist, s.durable, s.ops.Keys)
    && CacheInv(s.disk, s.cache, s.dirty, s.lh)
    && match s.phase
       case Running => RunningInv(g, s, home0)
       case Committing(_, _, _) => CommittingInv(g, s, home0)
       case Recovering(_, _) => RecoveringInv(g, s, home0)
  }

  // ---- every step keeps the invariant ----

  lemma BootInv(g: Geometry, d: Disk)
    requires WellFormed(g, d)
    ensures Inv(g, Boot(g, d), Recovered(g, d))
  {
    assert RecoveryWrites(g, d)[..0] == [];
  }

  lemma BeginInv(g: Geometry, s: State, home0: Disk, op: Op)
    requires Inv(g, s, home0) && Enabled(g, s, BeginOp(op))
    ensures Inv(g, Do(g, s, BeginOp(op)), home0)
  {
    hide HistoryInv, SpaceInv, CacheInv, Elems, Replay, SameHomes, OpenOps, HeaderCount, CommittingInv, RecoveringInv,
         HistoryOk;
    var r := Do(g, s, BeginOp(op));
    assert r.ops.Keys == s.ops.Keys + {op};
    HistoryExtends(g, s, r, home0, Begin(op));
    assert SpaceInv(r.lh, r.ops) by {
      OpenWasBegun(s.hist);
      BeginSpace(s, op);
    }
    assert r.ViewDisk() == s.ViewDisk();
  }

  lemma BeginSpace(s: State, op: Op)
    requires SpaceInv(s.lh, s.ops) && op !in s.ops && |s.lh| + (|s.ops| + 1) * MAXOPBLOCKS <= LOGSIZE
    ensures SpaceInv(s.lh, s.ops[op := {}])
  {
    hide Unused;
    UnusedBound(s.ops);
    UnusedPut(s.ops, op, {});
    assert s.ops - {op} == s.ops;
  }

  lemma HistoryExtends(g: Geometry, s: State, r: State, home0: Disk, e: Event)
    requires HistoryInv(g, |s.disk|, s.hist, s.durable, s.ops.Keys) && |home0| == |s.disk| == |r.disk|
    requires r.hist == s.hist + [e] && r.durable == s.durable
    requires match e
             case Begin(op) => op !in Begun(s.hist) && r.ops.Keys == s.ops.Keys + {op}
             case Wrote(op, b, _) => op in s.ops && r.ops.Keys == s.ops.Keys && b < |s.disk| && !g.InLog(b)
             case End(op) => op in s.ops && r.ops.Keys == s.ops.Keys - {op}
    ensures HistoryInv(g, |r.disk|, r.hist, r.durable, r.ops.Keys)
    ensures OpenOps(s.hist) == s.ops.Keys
    ensures r.durable <= |s.hist| && r.hist[..r.durable] == s.hist[..s.durable]
    ensures Replay(home0, r.hist) == match e
                                     case Wrote(_, b, data) => Replay(home0, s.hist)[b := data]
                                     case _ => Replay(home0, s.hist)
  {
    assert r.hist[..|r.hist| - 1] == s.hist;
    assert r.hist[..r.durable] == s.hist[..s.durable];
  }

  lemma LogWriteInv(g: Geometry, s: State, home0: Disk, op: Op, b: nat, data: Block)
    requires Inv(g, s, home0) && Enabled(g, s, LogWrite(op, b, data))
    ensures Inv(g, Do(g, s, LogWrite(op, b, data)), home0)
  {
    hide HistoryInv, SpaceInv, CacheInv, Elems, Blocks.GetWord, Begun, Absorb;
    var r := Do(g, s, LogWrite(op, b, data));
    HistoryExtends(g, s, r, home0, Wrote(op, b, data));
    LogWriteSpace(s, op, b);
    LogWriteCache(g, s, r, b, data);
  }

  lemma LogWriteCache(g: Geometry, s: State, r: State, b: nat, data: Block)
    requires Geometric(g, s) && CacheInv(s.disk, s.cache, s.dirty, s.lh) && b < |s.disk| && !g.InLog(b)
             && !LogWritePanics(g, s)
    requires r.disk == s.disk && r.cache == s.cache[b := data] && r.dirty == s.dirty + {b}
    requires r.lh == Absorb(s.lh, b) && Elems(r.lh) == Elems(s.lh) + {b}
    ensures CacheInv(r.disk, r.cache, r.dirty, r.lh) && Geometric(g, r) && r.ViewDisk() == s.ViewDisk()[b := data]
  {
    forall x | x in r.cache && x !in r.dirty
      ensures r.cache[x] == r.disk[x]
    {
      assert x in s.cache && x !in s.dirty;
    }
  }

  lemma AbsorbElems(lh: seq<nat>, b: nat)
    requires Distinct(lh)
    ensures Distinct(Absorb(lh, b)) && Elems(Absorb(lh, b)) == Elems(lh) + {b}
    ensures b in lh <==> b in Elems(lh)
  {
    var r := Absorb(lh, b);
    assert forall i :: 0 <= i < |lh| ==> r[i] == lh[i];
    if b !in lh {
      assert r[|lh|] == b;
    } else {
      var i :| 0 <= i < |lh| && lh[i] == b;
    }
    assert forall x :: x in Elems(lh) + {b} ==> x in Elems(r);
  }

  lemma LogWriteSpace(s: State, op: Op, b: nat)
    requires SpaceInv(s.lh, s.ops) && op in s.ops && |s.ops[op] + {b}| <= MAXOPBLOCKS
    ensures SpaceInv(Absorb(s.lh, b), s.ops[op := s.ops[op] + {b}])
    ensures Elems(Absorb(s.lh, b)) == Elems(s.lh) + {b}
  {
    hide Unused, Elems;
    AbsorbElems(s.lh, b);
    UnusedAt(s.ops, op);
    UnusedPut(s.ops, op, s.ops[op] + {b});
    if b in s.ops[op] {
      assert s.ops[op] + {b} == s.ops[op];
    } else {
      assert |s.ops[op] + {b}| == |s.ops[op]| + 1;
    }
  }

  lemma EndInv(g: Geometry, s: State, home0: Disk, op: Op)
    requires Inv(g, s, home0) && Enabled(g, s, EndOp(op))
    ensures s.phase.Running?
    ensures Inv(g, Do(g, s, EndOp(op)), home0)
  {
    hide HistoryInv, SpaceInv, Elems, Blocks.GetWord, Begun, Apply;
    var r := Do(g, s, EndOp(op));
    assert r.ops.Keys == s.ops.Keys - {op};
    HistoryExtends(g, s, r, home0, End(op));
    EndSpace(s, op);
    assert r.ViewDisk() == s.ViewDisk();
    if r.ops == map[] {
      EndStartsCommit(g, s, r, home0);
    }
  }

  lemma EndSpace(s: State, op: Op)
    requires SpaceInv(s.lh, s.ops) && op in s.ops
    ensures SpaceInv(s.lh, s.ops - {op})
  {
    hide Unused;
    UnusedAt(s.ops, op);
  }

  lemma EndStartsCommit(g: Geometry, s: State, r: State, home0: Disk)
    requires Inv(g, s, home0) && s.phase.Running?
    requires r.ops == map[] && r.phase == Committing(s.disk, s.ViewDisk(), 0)
    requires r.disk == s.disk && r.cache == s.cache && r.dirty == s.dirty && r.lh == s.lh
    requires r.durable == s.durable <= |r.hist|
    requires Replay(home0, r.hist) == Replay(home0, s.hist) && r.hist[..r.durable] == s.hist[..s.durable]
    ensures CommittingInv(g, r, home0)
  {
    hide Blocks.GetWord;
    assert CommitWrites(g, s.disk, s.ViewDisk(), s.lh)[..0] == [];
    assert r.ViewDisk() == s.ViewDisk();
    forall b | 0 <= b < |s.disk| && !g.InLog(b) && b !in s.lh
      ensures s.ViewDisk()[b] == s.disk[b]
    {
      assert b !in Elems(s.lh);
    }
  }

  lemma FillEvictInv(g: Geometry, s: State, home0: Disk, step: Step)
    requires Inv(g, s, home0) && Enabled(g, s, step) && (step.Fill? || step.Evict?)
    ensures Inv(g, Do(g, s, step), home0)
  {
    hide HistoryInv, SpaceInv, Elems, Blocks.GetWord, Apply, CommitWrites, RecoveryWrites, Recovered, Replay, SameHomes;
    var r := Do(g, s, step);
    assert CacheInv(r.disk, r.cache, r.dirty, r.lh);
    assert r.ViewDisk() == s.ViewDisk();
  }

  /** The write issued from the current buffers is the one fixed when the commit began. */
  lemma CommitWriteIs(g: Geometry, s: State, home0: Disk)
    requires Inv(g, s, home0) && s.phase.Committing? && s.phase.done < CommitLength(s.lh)
    ensures CommitWrite(g, s, s.phase.done)
         == CommitWrites(g, s.phase.base, s.phase.view, s.lh)[s.phase.done]
  {
    hide Blocks.GetWord, HistoryInv, Replay, PutHeader, CommitWrites, Apply;
    var base, view, k, lh := s.phase.base, s.phase.view, s.phase.done, s.lh;
    LogRegionClean(g, s);
    CommitWritesAt(g, base, view, lh, k);
    if k < |lh| {
      assert s.ViewDisk()[lh[k]] == view[lh[k]];
    } else {
      CommitLogRegion(g, base, view, lh, k);
    }
  }

  lemma CommitWritesAt(g: Geometry, d: Disk, view: Disk, lh: seq<nat>, k: nat)
    requires g.Fits(d) && g.Loggable(d, lh) && |view| == |d| && k < CommitLength(lh)
    ensures CommitWrites(g, d, view, lh)[k] ==
            var n := |lh|;
            var head := PutHeader(d[g.start], lh);
            if k < n then Write(g.start + 1 + k, view[lh[k]])
            else if k == n then Write(g.start, head)
            else if k <= 2 * n then Write(lh[k - n - 1], view[lh[k - n - 1]])
            else Write(g.start, PutHeader(head, []))
  {
    hide PutHeader;
  }

  lemma LogRegionClean(g: Geometry, s: State)
    requires Geometric(g, s) && CacheInv(s.disk, s.cache, s.dirty, s.lh)
    ensures forall b :: g.InLog(b) ==> s.View(b) == s.disk[b]
  {
  }

  /** Until the header is written it is the old one; from then on, until it is cleared, the
      log region holds the transaction. */
  lemma CommitLogRegion(g: Geometry, base: Disk, view: Disk, lh: seq<nat>, k: nat)
    requires g.Fits(base) && g.Loggable(base, lh) && |view| == |base| && lh != [] && |lh| <= k < CommitLength(lh)
    ensures var e := Apply(base, CommitWrites(g, base, view, lh)[..k]);
            && e[g.start] == (if k == |lh| then base[g.start] else PutHeader(base[g.start], lh))
            && forall i :: 0 <= i < |lh| ==> e[g.start + 1 + i] == view[lh[i]]
  {
    hide PutHeader, Blocks.GetWord, Apply, CommitWrites, InstallWrites, HomeWrites, RecoveryWrites;
    var all := CommitWrites(g, base, view, lh);
    var n := |lh|;
    if k == n {
      forall i: nat | i < n
        ensures all[i] == LogWrites(g, view, lh)[i]
      {
        CommitWritesAt(g, base, view, lh, i);
      }
      LogWritesFill(g, base, view, lh, n);
      assert all[..n] == LogWrites(g, view, lh)[..n];
    } else {
      forall i: nat | n < i <= 2 * n
        ensures all[i].bno == lh[i - n - 1]
      {
        CommitWritesAt(g, base, view, lh, i);
      }
      CommitPoint(g, base, view, lh);
      var hs := all[n + 1..k];
      assert all[..n + 1] + hs == all[..k];
      ApplyConcat(base, all[..n + 1], hs);
      InstallKeepsLog(g, Apply(base, all[..n + 1]), lh, hs);
    }
  }

  lemma {:induction false} OpenWasBegun(h: seq<Event>)
    ensures OpenOps(h) <= Begun(h)
  {
    if h != [] {
      var p := h[..|h| - 1];
      OpenWasBegun(p);
      forall op | op in Begun(p)
        ensures op in Begun(h)
      {
        var i :| 0 <= i < |p| && p[i].op == op;
        assert h[i].op == op;
      }
    }
  }

  lemma {:induction false} UnusedAt(ops: map<Op, set<nat>>, op: Op)
    requires op in ops
    ensures Unused(ops) == MAXOPBLOCKS - |ops[op]| + Unused(ops - {op})
    decreases |ops|
  {
    var q :| q in ops && Unused(ops) == MAXOPBLOCKS - |ops[q]| + Unused(ops - {q});
    if q != op {
      UnusedAt(ops - {q}, op);
      UnusedAt(ops - {op}, q);
      assert ops - {q} - {op} == ops - {op} - {q};
    }
  }

  lemma UnusedPut(ops: map<Op, set<nat>>, op: Op, bs: set<nat>)
    ensures Unused(ops[op := bs]) == MAXOPBLOCKS - |bs| + Unused(ops - {op})
  {
    var r := ops[op := bs];
    UnusedAt(r, op);
    assert r - {op} == ops - {op};
  }

  lemma {:induction false} UnusedBound(ops: map<Op, set<nat>>)
    ensures Unused(ops) <= MAXOPBLOCKS * |ops|
    decreases |ops|
  {
    if ops != map[] {
      var q :| q in ops && Unused(ops) == MAXOPBLOCKS - |ops[q]| + Unused(ops - {q});
      assert |ops - {q}| == |ops| - 1 by {
        assert (ops - {q}).Keys == ops.Keys - {q};
      }
      UnusedBound(ops - {q});
    }
  }

  lemma CommitWriteInv(g: Geometry, s: State, home0: Disk)
    requires Inv(g, s, home0) && Enabled(g, s, DiskWrite) && s.phase.Committing?
    ensures Inv(g, Do(g, s, DiskWrite), home0)
  {
    hide Blocks.GetWord, PutHeader, CommitWrites, HistoryInv, Elems, Replay, CacheInv, Apply, SameHomes;
    var k := s.phase.done;
    var r := Do(g, s, DiskWrite);
    CommitWriteEffect(g, s, home0);
    CommitUnpins(s, r, k);
    AllClosed(g, s);
  }

  lemma CommitWriteEffect(g: Geometry, s: State, home0: Disk)
    requires Inv(g, s, home0) && Enabled(g, s, DiskWrite) && s.phase.Committing?
    ensures var r := Do(g, s, DiskWrite);
            && CacheInv(r.disk, r.cache, r.dirty, r.lh)
            && r.disk == Apply(s.phase.base, CommitWrites(g, s.phase.base, s.phase.view, s.lh)[..s.phase.done + 1])
            && SameHomes(g, r.ViewDisk(), s.phase.view)
  {
    hide Blocks.GetWord, PutHeader, CommitWrites, HistoryInv, Elems, Replay, CacheInv;
    var base, view, k, lh := s.phase.base, s.phase.view, s.phase.done, s.lh;
    var all := CommitWrites(g, base, view, lh);
    var w := all[k];
    CommitWriteIs(g, s, home0);
    CommitWritesAt(g, base, view, lh, k);
    assert all[..k + 1][..k] == all[..k];
    PutCache(g, s, w);
    assert Do(g, s, DiskWrite).ViewDisk() == s.Put(w).ViewDisk();
  }

  lemma PutCache(g: Geometry, s: State, w: Write)
    requires CacheInv(s.disk, s.cache, s.dirty, s.lh) && w.bno < |s.disk|
    ensures CacheInv(s.Put(w).disk, s.Put(w).cache, s.Put(w).dirty, s.lh)
            && s.Put(w).ViewDisk() == s.ViewDisk()[w.bno := w.data]
  {
  }

  lemma AllClosed(g: Geometry, s: State)
    requires HistoryInv(g, |s.disk|, s.hist, s.durable, s.ops.Keys) && s.ops == map[]
    ensures HistoryInv(g, |s.disk|, s.hist, |s.hist|, s.ops.Keys) && s.hist[..|s.hist|] == s.hist
  {
    assert s.hist[..|s.hist|] == s.hist;
  }

  lemma CommitUnpins(s: State, r: State, k: nat)
    requires k < CommitLength(s.lh)
    requires s.dirty <= (if k <= |s.lh| + 1 then Elems(s.lh)
                         else if k - |s.lh| - 1 <= |s.lh| then Elems(s.lh[k - |s.lh| - 1..])
                         else {})
    requires r.lh == s.lh
    requires r.dirty == if |s.lh| < k <= 2 * |s.lh| then s.dirty - {s.lh[k - |s.lh| - 1]} else r.dirty
    requires r.dirty <= s.dirty
    ensures r.dirty <= (if k + 1 <= |s.lh| + 1 then Elems(s.lh)
                        else if k + 1 - |s.lh| - 1 <= |s.lh| then Elems(s.lh[k + 1 - |s.lh| - 1..])
                        else {})
  {
    var n := |s.lh|;
    if n < k <= 2 * n {
      var i := k - n - 1;
      assert s.lh[i..] == [s.lh[i]] + s.lh[i + 1..];
      assert s.lh[0..] == s.lh;
      forall b | b in Elems(s.lh[i..]) && b != s.lh[i]
        ensures b in Elems(s.lh[i + 1..])
      {
        var j :| 0 <= j < |s.lh[i..]| && s.lh[i..][j] == b;
        assert s.lh[i + 1..][j - 1] == b;
      }
    } else if k == 2 * n + 1 {
      assert s.lh[n..] == [];
    }
  }

  lemma RecoveryWriteInv(g: Geometry, s: State, home0: Disk)
    requires Inv(g, s, home0) && Enabled(g, s, DiskWrite) && s.phase.Recovering?
    ensures Inv(g, Do(g, s, DiskWrite), home0)
  {
    hide Blocks.GetWord, PutHeader, HistoryInv, Elems, Replay, CacheInv;
    var base, k, lh := s.phase.base, s.phase.done, s.lh;
    var all := RecoveryWrites(g, base);
    var w := all[k];
    assert forall b :: g.InLog(b) ==> s.View(b) == base[b] by {
      LogRegionClean(g, s);
      InstallKeepsLog(g, base, lh, all[..k]);
    }
    assert w == RecoveryWrite(g, s, k);
    assert all[..k + 1][..k] == all[..k];
    PutCache(g, s, w);
  }

  /** The main safety fact: at every moment, recovering the disk as it is yields exactly the
      homes left by the durable part of the history. */
  lemma RecoversDurable(g: Geometry, s: State, home0: Disk)
    requires Inv(g, s, home0)
    ensures WellFormed(g, s.disk)
    ensures SameHomes(g, Recovered(g, s.disk), Replay(home0, s.hist[..s.durable]))
  {
    hide Blocks.GetWord, PutHeader, Apply, CommitWrites, RecoveryWrites, Replay, Elems;
    match s.phase
    case Running =>
      ClearedRecovers(g, s.disk);
    case Committing(base, view, k) =>
      CommitCrash(g, base, view, s.lh, k);
      assert k > |s.lh| ==> s.hist[..s.durable] == s.hist;
    case Recovering(base, k) =>
      RecoveryCrash(g, base, k);
      assert s.hist[..s.durable] == s.hist;
  }

  lemma FinishInv(g: Geometry, s: State, home0: Disk)
    requires Inv(g, s, home0) && Enabled(g, s, Finish)
    ensures Inv(g, Do(g, s, Finish), home0)
  {
    hide Blocks.GetWord, PutHeader, Apply, CommitWrites, RecoveryWrites, Replay, Elems, HistoryInv;
    var r := Do(g, s, Finish);
    AllClosed(g, s);
    assert Elems([]) == {} by { ElemsNil(); }
    if s.phase.Committing? {
      var base, view, k := s.phase.base, s.phase.view, s.phase.done;
      CommitCrash(g, base, view, s.lh, k);
      assert s.dirty == {} by {
        if s.lh == [] {
          ElemsNil();
        }
      }
      assert SameHomes(g, s.disk, view);
    } else {
      RecoveryCrash(g, s.phase.base, s.phase.done);
    }
    assert r.ViewDisk() == s.disk;
    assert SpaceInv(r.lh, r.ops);
  }

  lemma ElemsNil()
    ensures Elems([]) == {}
  {
  }

  lemma {:induction false} HistoryPrefix(g: Geometry, h: seq<Event>, size: nat, k: nat)
    requires HistoryOk(g, h, size) && k <= |h|
    ensures HistoryOk(g, h[..k], size)
    decreases |h|
  {
    if k < |h| {
      var p := h[..|h| - 1];
      HistoryPrefix(g, p, size, k);
      assert p[..k] == h[..k];
    } else {
      assert h[..k] == h;
    }
  }

  lemma CrashInv(g: Geometry, s: State, home0: Disk)
    requires Inv(g, s, home0)
    ensures Enabled(g, s, Crash) && Inv(g, Do(g, s, Crash), home0)
  {
    hide HeaderCount, PutHeader, RecoveryWrites, Replay, SameHomes, CommittingInv, RunningInv;
    RecoversDurable(g, s, home0);
    HistoryPrefix(g, s.hist, |s.disk|, s.durable);
    var r := Do(g, s, Crash);
    assert r.hist[..r.durable] == r.hist;
    assert RecoveryWrites(g, s.disk)[..0] == [];
  }

  lemma StepInv(g: Geometry, s: State, home0: Disk, step: Step)
    requires Inv(g, s, home0) && Enabled(g, s, step)
    ensures Inv(g, Do(g, s, step), home0)
  {
    hide Inv, Do, Enabled;
    match step
    case BeginOp(op) => BeginInv(g, s, home0, op);
    case LogWrite(op, b, data) => LogWriteInv(g, s, home0, op, b, data);
    case EndOp(op) => EndInv(g, s, home0, op);
    case Fill(_) => FillEvictInv(g, s, home0, step);
    case Evict(_) => FillEvictInv(g, s, home0, step);
    case DiskWrite => DiskWriteInv(g, s, home0);
    case Finish => FinishInv(g, s, home0);
    case Crash => CrashInv(g, s, home0);
  }

  lemma DiskWriteInv(g: Geometry, s: State, home0: Disk)
    requires Inv(g, s, home0) && Enabled(g, s, DiskWrite)
    ensures Inv(g, Do(g, s, DiskWrite), home0)
  {
    hide Inv, Do;
    if s.phase.Committing? {
      CommitWriteInv(g, s, home0);
    } else {
      RecoveryWriteInv(g, s, home0);
    }
  }

  // ---- whole runs ----

  /** `ss` are the states of a run from power-on with disk `d0`, taking `steps`. */
  ghost predicate IsRun(g: Geometry, d0: Disk, ss: seq<State>, steps: seq<Step>) {
    && WellFormed(g, d0)
    && |ss| == |steps| + 1
    && ss[0] == Boot(g, d0)
    && forall i :: 0 <= i < |steps| ==> Enabled(g, ss[i], steps[i]) && ss[i + 1] == Do(g, ss[i], steps[i])
  }

  lemma {:induction false} RunInv(g: Geometry, d0: Disk, ss: seq<State>, steps: seq<Step>, i: nat)
    requires IsRun(g, d0, ss, steps) && i < |ss|
    ensures Inv(g, ss[i], Recovered(g, d0))
  {
    hide Inv, Do, Boot, Enabled, WellFormed, Recovered;
    if i == 0 {
      BootInv(g, d0);
    } else {
      RunInv(g, d0, ss, steps, i - 1);
      StepInv(g, ss[i - 1], Recovered(g, d0), steps[i - 1]);
    }
  }

  /** All-or-nothing for whole calls: a call's writes are either all in the durable part, with
      the call finished there, or none of them is. */
  ghost predicate WholeCalls(h: seq<Event>, durable: nat) {
    && durable <= |h|
    && (forall i, j :: 0 <= i < |h| && 0 <= j < |h| && h[i].Wrote? && h[j].Wrote? && h[i].op == h[j].op
                       ==> (i < durable <==> j < durable))
    && (forall i :: 0 <= i < durable && h[i].Wrote? ==> End(h[i].op) in h[..durable])
  }

  lemma {:induction false} ClosedStaysClosed(g: Geometry, h: seq<Event>, size: nat, d: nat, k: nat, op: Op)
    requires HistoryOk(g, h, size) && d <= k <= |h|
    requires op in Begun(h[..d]) && op !in OpenOps(h[..d])
    ensures op !in OpenOps(h[..k])
    decreases k
  {
    if k > d {
      ClosedStaysClosed(g, h, size, d, k - 1, op);
      HistoryPrefix(g, h, size, k);
      assert h[..k][..k - 1] == h[..k - 1];
      assert op in Begun(h[..k - 1]) by {
        var i :| 0 <= i < d && h[..d][i].op == op;
        assert h[..k - 1][i].op == op;
      }
    }
  }

  lemma {:induction false} ClosedHasEnd(h: seq<Event>, op: Op, k: nat)
    requires k < |h| && op in OpenOps(h[..k]) && op !in OpenOps(h)
    ensures End(op) in h
    decreases |h|
  {
    var p := h[..|h| - 1];
    assert p[..k] == h[..k] && p[..|p|] == p;
    if op in OpenOps(p) {
      assert h[|h| - 1] == End(op);
    } else {
      ClosedHasEnd(p, op, k);
    }
  }

  lemma DurableIsWhole(g: Geometry, h: seq<Event>, size: nat, durable: nat)
    requires HistoryOk(g, h, size) && durable <= |h| && OpenOps(h[..durable]) == {}
    ensures WholeCalls(h, durable)
  {
    forall i, j | 0 <= i < durable <= j < |h| && h[i].Wrote? && h[j].Wrote?
      ensures h[i].op != h[j].op
    {
      assert h[..durable][i].op == h[i].op;
      ClosedStaysClosed(g, h, size, durable, j, h[i].op);
      assert h[..j + 1][..j] == h[..j];
      HistoryPrefix(g, h, size, j + 1);
    }
    forall i | 0 <= i < durable && h[i].Wrote?
      ensures End(h[i].op) in h[..durable]
    {
      HistoryPrefix(g, h, size, i + 1);
      assert h[..i + 1][..i] == h[..i] == h[..durable][..i];
      ClosedHasEnd(h[..durable], h[i].op, i);
    }
  }

  /** Crash safety of group commit, for every run and every moment of it: whatever interleaving
      of calls, commits, crashes and interrupted recoveries led here, recovering the current
      disk gives the homes left by a set of whole, finished calls. */
  lemma CrashSafety(g: Geometry, d0: Disk, ss: seq<State>, steps: seq<Step>, i: nat)
    requires IsRun(g, d0, ss, steps) && i < |ss|
    ensures var s := ss[i];
            && WellFormed(g, s.disk)
            && WholeCalls(s.hist, s.durable)
            && SameHomes(g, Recovered(g, s.disk), Replay(Recovered(g, d0), s.hist[..s.durable]))
  {
    RunInv(g, d0, ss, steps, i);
    hide CacheInv, RunningInv, CommittingInv, RecoveringInv, Replay, Recovered, SameHomes, WellFormed, IsRun;
    var s := ss[i];
    RecoversDurable(g, s, Recovered(g, d0));
    DurableIsWhole(g, s.hist, |s.disk|, s.durable);
  }

  /** Isolation and read-your-writes: while a call is outstanding no home on disk reflects
      anything undurable, and once recovery is over every read sees all logged writes. */
  lemma Isolation(g: Geometry, d0: Disk, ss: seq<State>, steps: seq<Step>, i: nat)
    requires IsRun(g, d0, ss, steps) && i < |ss|
    ensures var s := ss[i];
            && s.durable <= |s.hist|
            && (s.ops != map[] ==>
                  s.phase.Running? && SameHomes(g, s.disk, Replay(Recovered(g, d0), s.hist[..s.durable])))
            && (!s.phase.Recovering? ==> SameHomes(g, s.ViewDisk(), Replay(Recovered(g, d0), s.hist)))
  {
    RunInv(g, d0, ss, steps, i);
    hide Replay, Recovered, WellFormed, IsRun, Apply, Elems, CommitWrites;
  }

  /** What is durable stays durable: across any part of a run, crashes included, the durable
      history only grows. */
  lemma {:induction false} DurableGrows(g: Geometry, d0: Disk, ss: seq<State>, steps: seq<Step>, i: nat, j: nat)
    requires IsRun(g, d0, ss, steps) && i <= j < |ss|
    ensures ss[i].durable <= |ss[i].hist| && ss[j].durable <= |ss[j].hist|
    ensures ss[i].hist[..ss[i].durable] <= ss[j].hist[..ss[j].durable]
    decreases j
  {
    hide Inv, WellFormed, Boot, Do, Enabled, Recovered;
    RunInv(g, d0, ss, steps, j);
    DurableInRange(g, ss[j], Recovered(g, d0));
    if i < j {
      DurableGrows(g, d0, ss, steps, i, j - 1);
      RunInv(g, d0, ss, steps, j - 1);
      DurableGrowsStep(g, ss[j - 1], Recovered(g, d0), steps[j - 1], ss[j]);
    }
  }

  lemma DurableInRange(g: Geometry, s: State, home0: Disk)
    requires Inv(g, s, home0)
    ensures s.durable <= |s.hist|
  {
  }

  lemma DurableGrowsStep(g: Geometry, s: State, home0: Disk, step: Step, r: State)
    requires Inv(g, s, home0) && Enabled(g, s, step) && r == Do(g, s, step) && r.durable <= |r.hist|
    ensures s.durable <= |s.hist| && s.hist[..s.durable] <= r.hist[..r.durable]
  {
    hide CacheInv, RunningInv, CommittingInv, RecoveringInv, Elems, Blocks.GetWord, HeaderBlocks;
  }

  // ---- log space ----

  lemma {:induction false} UnusedAtLeast(ops: map<Op, set<nat>>, op: Op)
    requires op in ops && forall o :: o in ops ==> |ops[o]| <= MAXOPBLOCKS
    ensures Unused(ops) >= MAXOPBLOCKS - |ops[op]|
  {
    UnusedAt(ops, op);
    UnusedNonNeg(ops - {op});
  }

  lemma {:induction false} UnusedNonNeg(ops: map<Op, set<nat>>)
    requires forall o :: o in ops ==> |ops[o]| <= MAXOPBLOCKS
    ensures Unused(ops) >= 0
    decreases |ops|
  {
    if ops != map[] {
      var q :| q in ops && Unused(ops) == MAXOPBLOCKS - |ops[q]| + Unused(ops - {q});
      assert (ops - {q}).Keys == ops.Keys - {q};
      UnusedNonNeg(ops - {q});
    }
  }

  /** begin_op's test keeps the log within LOGSIZE, counting what outstanding calls may still
      log; so with a log area of more than LOGSIZE blocks, log_write never panics for a call
      that has logged fewer than MAXOPBLOCKS blocks. */
  lemma LogSpace(g: Geometry, d0: Disk, ss: seq<State>, steps: seq<Step>, i: nat)
    requires IsRun(g, d0, ss, steps) && i < |ss|
    ensures var s := ss[i];
            && |s.lh| <= LOGSIZE
            && (s.phase.Running? ==> Distinct(s.lh) && |s.lh| + Unused(s.ops) <= LOGSIZE)
            && (g.size > LOGSIZE ==>
                  forall op :: op in s.ops && |s.ops[op]| < MAXOPBLOCKS ==> !LogWritePanics(g, s))
  {
    RunInv(g, d0, ss, steps, i);
    hide IsRun, WellFormed, Apply, Elems, Replay, CommitWrites, Unused, Recovered;
    var s := ss[i];
    forall op | op in s.ops && |s.ops[op]| < MAXOPBLOCKS && g.size > LOGSIZE
      ensures !LogWritePanics(g, s)
    {
      UnusedAtLeast(s.ops, op);
    }
  }

  lemma RunExtends(g: Geometry, d0: Disk, ss: seq<State>, steps: seq<Step>, step: Step)
    requires IsRun(g, d0, ss, steps) && Enabled(g, ss[|steps|], step)
    ensures IsRun(g, d0, ss + [Do(g, ss[|steps|], step)], steps + [step])
  {
    hide Do, Enabled, Boot, WellFormed;
  }

  /** The call that makes the m-th new log entry when three calls log ten blocks each in turn. */
  function Writer(m: nat): Op {
    m / MAXOPBLOCKS
  }

  ghost predicate Filled(g: Geometry, s: State, size: nat, m: nat) {
    && |s.disk| == size
    && s.phase.Running?
    && s.ops.Keys == {0, 1, 2}
    && |s.lh| == m
    && (forall b :: b in s.lh ==> b < g.start + g.size + m)
    && (forall op, b :: op in s.ops && b in s.ops[op] ==> b < g.start + g.size + m)
    && (forall op :: op in s.ops ==>
          |s.ops[op]| == if m <= op * MAXOPBLOCKS then 0
                         else if m <= (op + 1) * MAXOPBLOCKS then m - op * MAXOPBLOCKS else MAXOPBLOCKS)
  }

  function Calls(k: nat): (r: set<Op>)
    ensures |r| == k && forall op :: op in r ==> op < k
  {
    if k == 0 then {} else Calls(k - 1) + {k - 1}
  }

  /** k calls have begun and none has logged anything. */
  ghost predicate Opened(g: Geometry, s: State, size: nat, k: nat) {
    && |s.disk| == size && s.phase.Running? && s.lh == []
    && s.ops.Keys == Calls(k) == Begun(s.hist) && forall op :: op in s.ops ==> s.ops[op] == {}
  }

  /** Booting from a clean disk: the header is cleared again, and then calls may begin. */
  lemma Booted(g: Geometry, d0: Disk) returns (ss: seq<State>, steps: seq<Step>)
    requires WellFormed(g, d0) && HeaderCount(d0[g.start]) == 0
    ensures IsRun(g, d0, ss, steps) && Opened(g, ss[|steps|], |d0|, 0)
  {
    hide Blocks.GetWord, PutHeader;
    ss, steps := [Boot(g, d0)], [];
    var s := ss[0];
    assert s.lh == [];
    RunExtends(g, d0, ss, steps, DiskWrite);
    s := Do(g, s, DiskWrite);
    ss, steps := ss + [s], steps + [DiskWrite];
    RunExtends(g, d0, ss, steps, Finish);
    s := Do(g, s, Finish);
    ss, steps := ss + [s], steps + [Finish];
  }

  lemma CallsMore(k: nat)
    ensures Calls(k + 1) == Calls(k) + {k}
  {
  }

  lemma BegunMore(h: seq<Event>, e: Event)
    ensures Begun(h + [e]) == Begun(h) + {e.op}
  {
    forall op | op in Begun(h) + {e.op}
      ensures op in Begun(h + [e])
    {
      if op == e.op {
        assert (h + [e])[|h|].op == op;
      } else {
        var i :| 0 <= i < |h| && h[i].op == op;
        assert (h + [e])[i].op == op;
      }
    }
  }

  lemma BeginOne(g: Geometry, s: State, size: nat, k: nat)
    requires Opened(g, s, size, k) && k < 3
    ensures Enabled(g, s, BeginOp(k)) && Opened(g, Do(g, s, BeginOp(k)), size, k + 1)
  {
    hide Calls;
    assert |s.ops| == |s.ops.Keys| == k && k !in s.ops;
    BegunMore(s.hist, Begin(k));
    CallsMore(k);
    hide Begun;
    assert Do(g, s, BeginOp(k)).ops.Keys == Calls(k) + {k};
  }

  lemma ThreeCallsBegun(g: Geometry, d0: Disk, k: nat) returns (ss: seq<State>, steps: seq<Step>)
    requires WellFormed(g, d0) && HeaderCount(d0[g.start]) == 0 && k <= 3
    ensures IsRun(g, d0, ss, steps) && Opened(g, ss[|steps|], |d0|, k)
  {
    if k == 0 {
      ss, steps := Booted(g, d0);
    } else {
      hide Do, Enabled, Boot, WellFormed, Opened;
      ss, steps := ThreeCallsBegun(g, d0, k - 1);
      BeginOne(g, ss[|steps|], |d0|, k - 1);
      RunExtends(g, d0, ss, steps, BeginOp(k - 1));
      ss, steps := ss + [Do(g, ss[|steps|], BeginOp(k - 1))], steps + [BeginOp(k - 1)];
    }
  }

  lemma BegunFilled(g: Geometry, s: State, size: nat)
    requires Opened(g, s, size, 3)
    ensures Filled(g, s, size, 0)
  {
    assert Calls(3) == Calls(2) + {2} && Calls(2) == Calls(1) + {1} && Calls(1) == {0};
  }

  lemma FillOne(g: Geometry, s: State, size: nat, m: nat) returns (step: Step)
    requires Filled(g, s, size, m) && m + 1 < g.size && m < LOGSIZE && g.start + g.size + LOGSIZE <= size
    ensures Enabled(g, s, step) && Filled(g, Do(g, s, step), size, m + 1)
  {
    hide Blocks.GetWord, PutHeader;
    var op, b := Writer(m), g.start + g.size + m;
    step := LogWrite(op, b, ZeroBlock());
    assert b !in s.ops[op];
    assert |s.ops[op] + {b}| == |s.ops[op]| + 1;
  }

  lemma {:induction false} LogFills(g: Geometry, d0: Disk, m: nat) returns (ss: seq<State>, steps: seq<Step>)
    requires WellFormed(g, d0) && HeaderCount(d0[g.start]) == 0
    requires m < g.size && m <= LOGSIZE && g.start + g.size + LOGSIZE <= |d0|
    ensures IsRun(g, d0, ss, steps) && Filled(g, ss[|steps|], |d0|, m)
  {
    hide Do, Enabled, Boot, WellFormed, Filled, Opened;
    if m == 0 {
      ss, steps := ThreeCallsBegun(g, d0, 3);
      BegunFilled(g, ss[|steps|], |d0|);
    } else {
      ss, steps := LogFills(g, d0, m - 1);
      var step := FillOne(g, ss[|steps|], |d0|, m - 1);
      RunExtends(g, d0, ss, steps, step);
      ss, steps := ss + [Do(g, ss[|steps|], step)], steps + [step];
    }
  }

  /** The bound on the log area is needed: with at most LOGSIZE blocks, as mkfs lays it out, some
      run reaches the panic in log_write with a call that may still log. */
  lemma LogWritePanicReachable(g: Geometry, d0: Disk)
    requires WellFormed(g, d0) && HeaderCount(d0[g.start]) == 0
    requires g.size <= LOGSIZE && g.start + g.size + LOGSIZE <= |d0|
    ensures exists ss: seq<State>, steps: seq<Step> ::
              && IsRun(g, d0, ss, steps)
              && LogWritePanics(g, ss[|steps|])
              && exists op :: op in ss[|steps|].ops && |ss[|steps|].ops[op]| < MAXOPBLOCKS
  {
    hide HeaderCount, HeaderBlocks, Do, Enabled, Boot;
    var ss, steps := LogFills(g, d0, g.size - 1);
    assert 2 in ss[|steps|].ops;
  }

  /** With a larger log area the log can fill up to LOGSIZE blocks, and every call is still within its reservation. */
  lemma FullLogReachable(g: Geometry, d0: Disk)
    requires WellFormed(g, d0) && HeaderCount(d0[g.start]) == 0
    requires g.size > LOGSIZE && g.start + g.size + LOGSIZE <= |d0|
    ensures exists ss: seq<State>, steps: seq<Step> ::
              && IsRun(g, d0, ss, steps)
              && ss[|steps|].phase.Running? && |ss[|steps|].lh| == LOGSIZE
              && forall op :: op in ss[|steps|].ops ==> |ss[|steps|].ops[op]| <= MAXOPBLOCKS
  {
    hide HeaderCount, HeaderBlocks, Do, Enabled, Boot;
    var ss, steps := LogFills(g, d0, LOGSIZE);
  }
}
