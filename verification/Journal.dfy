/** The logging code refines group commit: whatever calls are made on a Log.Logger and wherever
    the power fails, what happens is a run of GroupCommit, so its theorems hold of the disks
    that the code leaves behind. */
module Journal {
  import opened Basics
  import opened Blocks
  import opened RedoLog
  import opened BufferCache
  import opened Log
  import Counting
  import G = GroupCommit

  // ---- the disk writes of a commit or a recovery as steps of a run ----

  /** The last state of a run. */
  ghost function Now(ss: seq<G.State>): G.State
    requires ss != []
  {
    ss[|ss| - 1]
  }

  /** The states from index m on have the disks that the writes `ws` pass through, starting from d. */
  ghost predicate Passes(ss: seq<G.State>, m: nat, d: Disk, ws: seq<Write>) {
    && m + |ws| < |ss|
    && (forall i :: 0 <= i < |ws| ==> ws[i].bno < |d|)
    && forall i :: m <= i <= m + |ws| ==> ss[i].disk == Apply(d, ws[..i - m])
  }

  function AfterWrites(p: G.Phase, k: nat): G.Phase {
    match p
    case Running => p
    case Committing(base, view, _) => G.Committing(base, view, k)
    case Recovering(base, _) => G.Recovering(base, k)
  }

  ghost predicate AtStart(s: G.State) {
    match s.phase
    case Running => false
    case Committing(base, view, done) => base == s.disk && view == s.ViewDisk() && done == 0
    case Recovering(base, done) => base == s.disk && done == 0
  }

  /** What a commit or recovery that starts in s is going to write. */
  ghost function Plan(g: Geometry, s: G.State): seq<Write>
    requires if s.phase.Recovering? then WellFormed(g, s.disk) else G.Geometric(g, s)
  {
    if s.phase.Recovering? then RecoveryWrites(g, s.disk) else CommitWrites(g, s.disk, s.ViewDisk(), s.lh)
  }

  lemma Planned(g: Geometry, s: G.State, home0: Disk)
    requires G.Inv(g, s, home0) && AtStart(s)
    ensures if s.phase.Recovering? then WellFormed(g, s.disk) && |Plan(g, s)| == |s.lh| + 1
            else G.Geometric(g, s) && |Plan(g, s)| == G.CommitLength(s.lh)
    ensures forall i :: 0 <= i < |Plan(g, s)| ==> Plan(g, s)[i].bno < |s.disk|
  {
    hide G.CacheInv, G.HistoryInv, Apply, CommitWrites, Blocks.GetWord;
  }

  /** r is s after k of its planned writes. */
  ghost predicate After(s: G.State, r: G.State, k: nat) {
    && r.phase == AfterWrites(s.phase, k) && r.lh == s.lh && r.hist == s.hist && r.ops == s.ops
    && (r.durable == s.durable || r.durable == |r.hist|)
  }

  /** From index m on nothing is added to the history; at most all of it becomes durable. */
  ghost predicate Settles(ss: seq<G.State>, m: nat, hist: seq<G.Event>, durable: nat) {
    forall i :: m <= i < |ss| ==> ss[i].hist == hist && (ss[i].durable == durable || ss[i].durable == |hist|)
  }

  lemma WritesSettle(ss: seq<G.State>, m: nat, k: nat)
    requires WriteStates(ss, m, k)
    ensures Settles(ss, m, ss[m].hist, ss[m].durable)
  {
    hide AtStart, AfterWrites;
    assert After(ss[m], ss[m], 0);
  }

  lemma AfterNone(s: G.State)
    requires AtStart(s)
    ensures After(s, s, 0)
  {
  }

  lemma WriteOne(g: Geometry, s: G.State, r: G.State, home0: Disk, k: nat)
    requires G.Inv(g, s, home0) && G.Inv(g, r, home0) && AtStart(s) && After(s, r, k)
    requires s.phase.Committing? ==> k < G.CommitLength(s.lh)
    requires s.phase.Recovering? ==> k <= |s.lh|
    ensures G.Enabled(g, r, G.DiskWrite) && After(s, G.Do(g, r, G.DiskWrite), k + 1)
  {
    hide G.CommitWrite, G.RecoveryWrite, G.CommittingInv, G.RecoveringInv, G.CacheInv, G.HistoryInv;
  }

  lemma DiskAfter(g: Geometry, s: G.State, r: G.State, home0: Disk, k: nat)
    requires G.Inv(g, s, home0) && G.Inv(g, r, home0) && AtStart(s) && After(s, r, k)
    requires if s.phase.Recovering? then WellFormed(g, s.disk) else G.Geometric(g, s)
    ensures k <= |Plan(g, s)| && (forall i :: 0 <= i < |Plan(g, s)| ==> Plan(g, s)[i].bno < |s.disk|)
    ensures r.disk == Apply(s.disk, Plan(g, s)[..k])
  {
    hide G.CacheInv, G.HistoryInv, Apply, CommitWrites, RecoveryWrites, Blocks.GetWord;
  }

  ghost predicate WriteStates(ss: seq<G.State>, m: nat, k: nat) {
    m + k + 1 == |ss| && AtStart(ss[m]) && forall i :: m <= i < |ss| ==> After(ss[m], ss[i], i - m)
  }

  /** Any number k of the planned writes can be taken, one step each. */
  lemma {:induction false} WriteRun(g: Geometry, d0: Disk, ss: seq<G.State>, steps: seq<G.Step>, k: nat)
    returns (ts: seq<G.State>, us: seq<G.Step>)
    requires G.IsRun(g, d0, ss, steps) && AtStart(Now(ss))
    requires if Now(ss).phase.Recovering? then k <= |Now(ss).lh| + 1 else k <= G.CommitLength(Now(ss).lh)
    ensures G.IsRun(g, d0, ts, us) && ss <= ts && WriteStates(ts, |ss| - 1, k)
    decreases k
  {
    hide G.Inv, G.Boot, WellFormed, G.Do, G.Enabled, AtStart;
    if k == 0 {
      AfterNone(Now(ss));
      ts, us := ss, steps;
    } else {
      ts, us := WriteRun(g, d0, ss, steps, k - 1);
      G.RunInv(g, d0, ts, us, |ss| - 1);
      G.RunInv(g, d0, ts, us, |us|);
      WriteOne(g, Now(ss), Now(ts), Recovered(g, d0), k - 1);
      G.RunExtends(g, d0, ts, us, G.DiskWrite);
      ts, us := ts + [G.Do(g, Now(ts), G.DiskWrite)], us + [G.DiskWrite];
    }
  }

  /** The disks of those states are the ones the planned writes pass through. */
  lemma WritesPass(g: Geometry, d0: Disk, ss: seq<G.State>, steps: seq<G.Step>, m: nat, k: nat)
    requires G.IsRun(g, d0, ss, steps) && WriteStates(ss, m, k)
    requires if ss[m].phase.Recovering? then WellFormed(g, ss[m].disk) else G.Geometric(g, ss[m])
    ensures k <= |Plan(g, ss[m])| && Passes(ss, m, ss[m].disk, Plan(g, ss[m])[..k])
  {
    hide G.Inv, G.Boot, WellFormed, G.Do, G.Enabled, Apply, Plan, After, AtStart;
    var ws := Plan(g, ss[m]);
    G.RunInv(g, d0, ss, steps, m);
    G.RunInv(g, d0, ss, steps, m + k);
    DiskAfter(g, ss[m], ss[m + k], Recovered(g, d0), k);
    forall i | m <= i <= m + k
      ensures ss[i].disk == Apply(ss[m].disk, ws[..k][..i - m])
    {
      G.RunInv(g, d0, ss, steps, i);
      DiskAfter(g, ss[m], ss[i], Recovered(g, d0), i - m);
      assert ws[..k][..i - m] == ws[..i - m];
    }
  }

  lemma PassesMore(ss: seq<G.State>, m: nat, d: Disk, ws: seq<Write>, s: G.State)
    requires Passes(ss, m, d, ws)
    ensures Passes(ss + [s], m, d, ws)
  {
    hide Apply;
  }

  /** A run whose last state starts a commit or a recovery goes on with k of the planned writes, and if these are all
      of them it can finish. */
  lemma PlannedRun(g: Geometry, d0: Disk, ss: seq<G.State>, steps: seq<G.Step>, k: nat)
    returns (ts: seq<G.State>, us: seq<G.Step>)
    requires G.IsRun(g, d0, ss, steps) && AtStart(Now(ss))
    requires if Now(ss).phase.Recovering? then WellFormed(g, Now(ss).disk) else G.Geometric(g, Now(ss))
    requires k <= |Plan(g, Now(ss))|
    ensures G.IsRun(g, d0, ts, us) && ss <= ts && After(Now(ss), Now(ts), k)
    ensures Passes(ts, |ss| - 1, Now(ss).disk, Plan(g, Now(ss))[..k])
    ensures k == |Plan(g, Now(ss))| ==> G.Enabled(g, Now(ts), G.Finish)
    ensures Now(ts).disk == Apply(Now(ss).disk, Plan(g, Now(ss))[..k])
    ensures Settles(ts, |ss| - 1, Now(ss).hist, Now(ss).durable)
  {
    hide G.Inv, G.Boot, WellFormed, G.Do, G.Enabled, AtStart, Plan, Apply;
    G.RunInv(g, d0, ss, steps, |ss| - 1);
    Planned(g, Now(ss), Recovered(g, d0));
    ts, us := WriteRun(g, d0, ss, steps, k);
    WritesPass(g, d0, ts, us, |ss| - 1, k);
    CanFinish(g, Now(ss), Now(ts), Recovered(g, d0), k);
    WritesSettle(ts, |ss| - 1, k);
    assert Plan(g, Now(ss))[..k][..k] == Plan(g, Now(ss))[..k];
  }

  lemma CanFinish(g: Geometry, s: G.State, r: G.State, home0: Disk, k: nat)
    requires G.Inv(g, s, home0) && AtStart(s) && After(s, r, k)
    requires if s.phase.Recovering? then WellFormed(g, s.disk) else G.Geometric(g, s)
    ensures k == |Plan(g, s)| ==> G.Enabled(g, r, G.Finish)
  {
    hide G.CacheInv, G.HistoryInv, Apply, CommitWrites, RecoveryWrites, Blocks.GetWord;
  }

  /** A crash after any of the writes leaves a disk from which recovery restores the homes of whole, finished calls;
      and the run up to there is one that a restart continues. */
  lemma CrashAnywhere(g: Geometry, d0: Disk, ss: seq<G.State>, steps: seq<G.Step>, m: nat, d: Disk, ws: seq<Write>,
                      j: nat)
    requires G.IsRun(g, d0, ss, steps) && Passes(ss, m, d, ws) && j <= |ws|
    ensures var e, s := Apply(d, ws[..j]), ss[m + j];
            && WellFormed(g, e)
            && G.WholeCalls(s.hist, s.durable)
            && SameHomes(g, Recovered(g, e), G.Replay(Recovered(g, d0), s.hist[..s.durable]))
            && G.IsRun(g, d0, ss[..m + j + 1], steps[..m + j]) && Now(ss[..m + j + 1]).disk == e
  {
    hide WellFormed, Recovered, G.Replay, G.Do, G.Enabled, Apply;
    G.CrashSafety(g, d0, ss, steps, m + j);
  }

  // ---- matching the code to a run ----

  /** The code between two of its critical sections, and the state of a run it corresponds to. */
  ghost predicate Agree(s: G.State, disk: Disk, view: Disk, bs: seq<Buf>, lh: seq<nat>, outstanding: nat) {
    && s.phase.Running? && s.disk == disk && s.ViewDisk() == view && s.lh == lh && |s.ops| == outstanding
    && |bs| == NBUF + 1 && Idle(bs, disk, {}) && Pinned(bs) == Counting.Elems(lh)
  }

  lemma OneMore(ops: map<G.Op, set<nat>>, op: G.Op)
    requires op !in ops
    ensures |ops[op := {}]| == |ops| + 1
  {
    assert ops[op := {}].Keys == ops.Keys + {op};
  }

  lemma BeginAgrees(g: Geometry, s: G.State, disk: Disk, view: Disk, bs: seq<Buf>, lh: seq<nat>, outstanding: nat,
                    op: G.Op)
    requires Agree(s, disk, view, bs, lh, outstanding) && op !in s.ops && G.Enabled(g, s, G.BeginOp(op))
    ensures Agree(G.Do(g, s, G.BeginOp(op)), disk, view, bs, lh, outstanding + 1)
  {
    hide Idle, Pinned, Counting.Elems;
    OneMore(s.ops, op);
    assert G.Do(g, s, G.BeginOp(op)).ViewDisk() == s.ViewDisk();
  }

  lemma EndAgrees(g: Geometry, s: G.State, disk: Disk, view: Disk, bs: seq<Buf>, lh: seq<nat>, outstanding: nat,
                  op: G.Op)
    requires Agree(s, disk, view, bs, lh, outstanding) && op in s.ops
    ensures var r := G.Do(g, s, G.EndOp(op));
            && outstanding >= 1 && r.hist == s.hist + [G.End(op)] && r.durable == s.durable
            && r.lh == lh && r.disk == disk && r.ViewDisk() == view
            && (outstanding == 1 ==> r.ops == map[] && AtStart(r) && r.phase.Committing?)
            && (outstanding > 1 ==> Agree(r, disk, view, bs, lh, outstanding - 1))
  {
    hide Idle, Pinned, Counting.Elems;
    var r := G.Do(g, s, G.EndOp(op));
    assert (s.ops - {op}).Keys == s.ops.Keys - {op};
    assert |s.ops - {op}| == |s.ops| - 1;
    assert r.ViewDisk() == s.ViewDisk();
  }

  lemma WriteAgrees(g: Geometry, s: G.State, disk: Disk, view: Disk, bs: seq<Buf>, lh: seq<nat>, outstanding: nat,
                    op: G.Op, i: nat, data: Block)
    requires Agree(s, disk, view, bs, lh, outstanding) && Counting.Distinct(lh) && i < NBUF
    requires G.Enabled(g, s, G.LogWrite(op, bs[i].blockno, data))
    ensures Agree(G.Do(g, s, G.LogWrite(op, bs[i].blockno, data)), disk, view[bs[i].blockno := data],
                  bs[i := bs[i].(data := data, dirty := true)], Absorb(lh, bs[i].blockno), outstanding)
  {
    hide Counting.Elems, Absorb, Counting.Distinct, Idle, Pinned;
    var b := bs[i].blockno;
    var r := G.Do(g, s, G.LogWrite(op, b, data));
    assert r.ops.Keys == s.ops.Keys;
    G.AbsorbElems(lh, b);
    WritePins(bs, disk, i, data);
    assert r.ViewDisk() == s.ViewDisk()[b := data];
  }

  lemma PinnedData(bs: seq<Buf>, i: nat, data: Block)
    requires |bs| == NBUF + 1 && i < NBUF
    ensures Pinned(bs[i := bs[i].(data := data)]) == Pinned(bs)
  {
    var cs := bs[i := bs[i].(data := data)];
    assert forall j :: 0 <= j < NBUF ==> cs[j].dirty == bs[j].dirty && cs[j].blockno == bs[j].blockno;
  }

  lemma WritePins(bs: seq<Buf>, disk: Disk, i: nat, data: Block)
    requires |bs| == NBUF + 1 && i < NBUF && Idle(bs, disk, {})
    ensures var cs := bs[i := bs[i].(data := data, dirty := true)];
            Idle(cs, disk, {}) && Pinned(cs) == Pinned(bs) + {bs[i].blockno}
  {
    var cs := bs[i := bs[i].(data := data)];
    PinnedData(bs, i, data);
    PinAdds(cs, i);
    assert cs[i := cs[i].(dirty := true)] == bs[i := bs[i].(data := data, dirty := true)];
  }

  /** Once everything is installed the run is at rest, and so is the code. */
  lemma FinishAgrees(g: Geometry, s: G.State, home0: Disk, disk: Disk, view: Disk, bs: seq<Buf>, t: set<nat>)
    requires G.Inv(g, s, home0) && G.Enabled(g, s, G.Finish) && s.disk == disk
    requires Idle(bs, disk, t) && Pinned(bs) == {} && view == disk
    ensures var r := G.Do(g, s, G.Finish);
            Agree(r, disk, view, bs, [], 0) && r.hist == s.hist && r.durable == |r.hist| && r.ops == map[]
  {
    hide G.HistoryInv, G.HistoryOk, Apply, CommitWrites, RecoveryWrites, G.Replay, SameHomes, Blocks.GetWord, Recovered;
    var r := G.Do(g, s, G.Finish);
    G.FinishInv(g, s, home0);
    G.ElemsNil();
    assert r.ViewDisk() == r.disk;
  }

  lemma Rested(g: Geometry, s: G.State, home0: Disk)
    requires G.Inv(g, s, home0) && s.phase.Running?
    ensures G.Geometric(g, s) && HeaderCount(s.disk[g.start]) == 0 && Counting.Distinct(s.lh)
    ensures s.ops.Keys <= G.Begun(s.hist)
  {
    G.OpenWasBegun(s.hist);
  }

  /** bread keeps the cache in step with the disk. */
  lemma HoldIdle(bs: seq<Buf>, cs: seq<Buf>, disk: Disk, view: Disk, i: nat, b: nat)
    requires Coherent(bs, disk, view) && Coherent(cs, disk, view) && Idle(bs, disk, {}) && b < |disk|
    requires ReadInto(bs, cs, i, b) && cs[i].data == view[b]
    ensures Idle(cs, disk, {}) && Pinned(cs) == Pinned(bs)
  {
    ReadKeepsPinned(bs, cs, i, b);
    HeldClean(bs, cs, disk, view, {}, i, b);
    forall j | 0 <= j < NBUF
      ensures OnDisk(cs[j], disk)
    {
      assert j != i ==> SameCore(bs[j], cs[j]);
      assert OnDisk(bs[j], disk);
    }
  }

  lemma ReleaseIdle(bs: seq<Buf>, cs: seq<Buf>, disk: Disk, i: nat)
    requires Idle(bs, disk, {}) && i < NBUF && OthersSame(bs, cs, i) && bs[i].refcnt > 0
    requires SameCore(bs[i].(locked := false, refcnt := bs[i].refcnt - 1), cs[i])
    ensures Idle(cs, disk, {}) && Pinned(cs) == Pinned(bs)
  {
    forall j | 0 <= j < NBUF
      ensures OnDisk(cs[j], disk) && cs[j].dirty == bs[j].dirty && cs[j].blockno == bs[j].blockno
    {
      assert OnDisk(bs[j], disk);
      assert j != i ==> SameCore(bs[j], cs[j]);
    }
  }

  ghost function Below(n: nat): (r: set<nat>)
    ensures forall b: nat :: b < n ==> b in r
  {
    if n == 0 then {} else Below(n - 1) + {n - 1}
  }

  /** A buffer that nobody refers to is not locked, and unless pinned it agrees with the disk. */
  lemma QuietIdle(bs: seq<Buf>, disk: Disk, view: Disk, t: set<nat>)
    requires Coherent(bs, disk, view) && Quiet(bs)
    ensures Idle(bs, disk, t)
  {
    assert forall i :: 0 <= i < NBUF ==> BufOk(bs[i], disk, view);
  }

  lemma RecoveringFacts(g: Geometry, s: G.State, home0: Disk)
    requires G.Inv(g, s, home0) && s.phase == G.Recovering(s.disk, 0)
    ensures AtStart(s) && WellFormed(g, s.disk) && s.lh == HeaderBlocks(s.disk[g.start])
    ensures forall i :: 0 <= i < |s.lh| ==> s.lh[i] < |s.disk|
  {
  }

  /** All the planned writes have been made and nothing is pinned: the run finishes and agrees with the code. */
  lemma CompleteRun(g: Geometry, d0: Disk, ss: seq<G.State>, steps: seq<G.Step>, disk: Disk, view: Disk, bs: seq<Buf>,
                    t: set<nat>)
    returns (ts: seq<G.State>, us: seq<G.Step>)
    requires G.IsRun(g, d0, ss, steps) && AtStart(Now(ss))
    requires if Now(ss).phase.Recovering? then WellFormed(g, Now(ss).disk) else G.Geometric(g, Now(ss))
    requires forall i :: 0 <= i < |Plan(g, Now(ss))| ==> Plan(g, Now(ss))[i].bno < |Now(ss).disk|
    requires disk == Apply(Now(ss).disk, Plan(g, Now(ss))) == view && Idle(bs, disk, t) && Pinned(bs) == {}
    ensures G.IsRun(g, d0, ts, us) && ss <= ts && Passes(ts, |ss| - 1, Now(ss).disk, Plan(g, Now(ss)))
    ensures Agree(Now(ts), disk, view, bs, [], 0) && Now(ts).hist == Now(ss).hist && Now(ts).durable == |Now(ts).hist|
    ensures Settles(ts, |ss| - 1, Now(ss).hist, Now(ss).durable)
  {
    hide G.Inv, G.Boot, WellFormed, G.Do, G.Enabled, AtStart, Plan, Apply, Idle, Agree, Pinned;
    var ws := Plan(g, Now(ss));
    assert ws[..|ws|] == ws;
    ts, us := PlannedRun(g, d0, ss, steps, |ws|);
    G.RunInv(g, d0, ts, us, |ts| - 1);
    FinishAgrees(g, Now(ts), Recovered(g, d0), disk, view, bs, t);
    G.RunExtends(g, d0, ts, us, G.Finish);
    PassesMore(ts, |ss| - 1, Now(ss).disk, ws, G.Do(g, Now(ts), G.Finish));
    ts, us := ts + [G.Do(g, Now(ts), G.Finish)], us + [G.Finish];
  }

  /** The last call ends: the run is about to commit what the code is about to commit. */
  lemma EndRun(g: Geometry, d0: Disk, ss: seq<G.State>, steps: seq<G.Step>, disk: Disk, view: Disk, bs: seq<Buf>,
               lh: seq<nat>, op: G.Op)
    returns (ts: seq<G.State>, us: seq<G.Step>)
    requires G.IsRun(g, d0, ss, steps) && Agree(Now(ss), disk, view, bs, lh, 1) && op in Now(ss).ops
    ensures G.IsRun(g, d0, ts, us) && ss <= ts && |ts| == |ss| + 1
    ensures Now(ts).hist == Now(ss).hist + [G.End(op)] && Now(ts).durable == Now(ss).durable
    ensures AtStart(Now(ts)) && Now(ts).phase.Committing? && G.Geometric(g, Now(ts)) && Now(ts).disk == disk
    ensures |view| == |disk| && Plan(g, Now(ts)) == CommitWrites(g, disk, view, lh)
    ensures HeaderCount(disk[g.start]) == 0 && Counting.Distinct(lh)
  {
    hide G.Inv, Recovered, WellFormed, G.Do, Pinned, Counting.Elems, Idle, AtStart, CommitWrites, Counting.Distinct,
         HeaderCount;
    var s := Now(ss);
    G.RunInv(g, d0, ss, steps, |ss| - 1);
    Rested(g, s, Recovered(g, d0));
    EndAgrees(g, s, disk, view, bs, lh, 1, op);
    G.RunExtends(g, d0, ss, steps, G.EndOp(op));
    ts, us := ss + [G.Do(g, s, G.EndOp(op))], steps + [G.EndOp(op)];
  }

  class Journal {
    const log: Logger
    ghost const d0: Disk
    ghost var ss: seq<G.State>
    ghost var steps: seq<G.Step>

    ghost predicate Running()
      reads this, log, log.bc, log.bc.buf, log.block
    {
      && log.Valid() && !log.committing && ss != [] && G.IsRun(log.g, d0, ss, steps)
      && Agree(Now(ss), log.bc.disk, log.bc.view, log.bc.buf[..], log.block[..log.n], log.outstanding)
    }

    /** Between power-on and recovery: nobody holds a buffer and nothing is pinned. */
    ghost predicate Starting()
      reads this, log, log.bc, log.bc.buf, log.block
    {
      && log.Valid() && log.outstanding == 0 && !log.committing && G.IsRun(log.g, d0, ss, steps)
      && Now(ss).disk == log.bc.disk && Now(ss).phase == G.Recovering(log.bc.disk, 0)
      && Quiet(log.bc.buf[..]) && Pinned(log.bc.buf[..]) == {}
    }

    /** Power-on and binit, with the disk that the last state of a run has, whatever was going on then. */
    constructor (g: Geometry, d: Disk, ghost d0: Disk, ghost ss: seq<G.State>, ghost steps: seq<G.Step>)
      requires G.IsRun(g, d0, ss, steps) && Now(ss).disk == d
      ensures Starting() && log.g == g && this.d0 == d0 && log.bc.disk == d && log.bc.writes == []
      ensures |this.ss| == |ss| + 1 && ss <= this.ss && Now(ss).durable <= |Now(ss).hist|
      ensures Now(this.ss).hist == Now(ss).hist[..Now(ss).durable] && Now(this.ss).durable == Now(ss).durable
      ensures fresh(log) && fresh(log.bc) && fresh(log.bc.buf) && fresh(log.block)
    {
      hide G.Inv, Recovered, G.Boot;
      G.RunInv(g, d0, ss, steps, |steps|);
      G.CrashInv(g, Now(ss), Recovered(g, d0));
      G.RunExtends(g, d0, ss, steps, G.Crash);
      var bc := new Bcache(d);
      log := new Logger(bc, g);
      this.d0 := d0;
      this.ss, this.steps := ss + [G.Do(g, Now(ss), G.Crash)], steps + [G.Crash];
    }

    /** readsb, by which initlog learns where the log is: the superblock as it is on disk, which stays cached. */
    method ReadSuper() returns (data: Block)
      requires Starting() && |log.bc.disk| > 1
      modifies log.bc`order, log.bc`stamp, log.bc`clock, log.bc.buf
      ensures Starting() && data == log.bc.disk[1]
    {
      hide G.IsRun, Coherent, Linked, RecentFirst, Pinned, Choice;
      ghost var bs, t := log.bc.buf[..], {1};
      QuietIdle(bs, log.bc.disk, log.bc.view, t);
      NotLocked(bs, log.bc.disk, t, 1);
      UnpinnedIsOnDisk(bs, log.bc.disk, log.bc.view, t, 1);
      var r := log.bc.Bread(1);
      if r.None? {
        NoneRead(bs, log.bc.disk, log.bc.view, 1);
        assert false;
      }
      data := log.bc.buf[r.value].data;
      ghost var cs := log.bc.buf[..];
      UnpinnedClean(bs, cs, r.value, 1);
      log.bc.Brelse(r.value);
      assert cs == cs[r.value := cs[r.value].(data := data, dirty := false)];
      ReleaseOne(bs, cs, log.bc.buf[..], r.value, 1, data, log.bc.disk, log.bc.view, t);
    }

    /** begin_op, one turn of its loop: admitted exactly when the step of the run is. */
    method Begin(ghost op: G.Op) returns (admitted: bool)
      requires Running() && op !in G.Begun(Now(ss).hist)
      modifies this`ss, this`steps, log`outstanding
      ensures Running() && admitted == G.Enabled(log.g, old(Now(ss)), G.BeginOp(op))
      ensures admitted <==> log.n + (old(log.outstanding) + 1) * MAXOPBLOCKS <= LOGSIZE
      ensures ss == if admitted then old(ss) + [G.Do(log.g, old(Now(ss)), G.BeginOp(op))] else old(ss)
    {
      hide G.Inv, Recovered, WellFormed, G.Do;
      ghost var s := Now(ss);
      G.RunInv(log.g, d0, ss, steps, |ss| - 1);
      Rested(log.g, s, Recovered(log.g, d0));
      admitted := log.BeginOp();
      if admitted {
        BeginAgrees(log.g, s, log.bc.disk, log.bc.view, log.bc.buf[..], log.block[..log.n], old(log.outstanding), op);
        G.RunExtends(log.g, d0, ss, steps, G.BeginOp(op));
        ss, steps := ss + [G.Do(log.g, s, G.BeginOp(op))], steps + [G.BeginOp(op)];
      }
    }

    /** bread: what it returns for a home block is what all logged writes left there. */
    method Hold(b: nat) returns (r: Option<nat>)
      requires Running() && b < |log.bc.disk|
      requires forall i :: 0 <= i < NBUF && log.bc.buf[i].Caches(b) ==> !log.bc.buf[i].locked
      modifies log.bc.buf
      ensures Running() && |Recovered(log.g, d0)| == |log.bc.disk|
      ensures r.Some? ==> r.value < NBUF && log.bc.buf[r.value].Caches(b) && log.bc.buf[r.value].valid
                          && log.bc.buf[r.value].locked
      ensures r.Some? && !log.g.InLog(b) ==> log.bc.buf[r.value].data == G.Replay(Recovered(log.g, d0), Now(ss).hist)[b]
      ensures r.Some? ==> ReadInto(old(log.bc.buf[..]), log.bc.buf[..], r.value, b)
                          && b < |log.bc.view| && log.bc.buf[r.value].data == log.bc.view[b]
      ensures r.Some? <==> old(CanRead(log.bc.buf[..], b))
    {
      hide G.Inv, Recovered, WellFormed, G.Replay, Coherent, Linked, RecentFirst, Pinned, Counting.Elems, Idle;
      ghost var bs := log.bc.buf[..];
      G.Isolation(log.g, d0, ss, steps, |ss| - 1);
      r := log.bc.Bread(b);
      if r.None? {
        NoneRead(bs, log.bc.disk, log.bc.view, b);
      } else {
        ReadMeans(bs, log.bc.buf[..], r.value, b);
        HoldIdle(bs, log.bc.buf[..], log.bc.disk, log.bc.view, r.value, b);
      }
    }

    /** brelse of a buffer that was not changed or has been logged. */
    method Release(i: nat)
      requires Running() && i < NBUF
      requires log.bc.buf[i].dev == ROOTDEV && log.bc.buf[i].valid && log.bc.buf[i].locked
      modifies log.bc`order, log.bc`stamp, log.bc`clock, log.bc.buf
      ensures Running() && OthersSame(old(log.bc.buf[..]), log.bc.buf[..], i) && old(log.bc.buf[i]).refcnt > 0
      ensures SameCore(old(log.bc.buf[i]).(locked := false, refcnt := old(log.bc.buf[i]).refcnt - 1), log.bc.buf[i])
    {
      hide G.Inv, Recovered, WellFormed, Linked, RecentFirst, Pinned, Counting.Elems;
      ghost var bs := log.bc.buf[..];
      assert BufOk(bs[i], log.bc.disk, log.bc.view) && OnDisk(bs[i], log.bc.disk);
      log.bc.Brelse(i);
      ReleaseIdle(bs, log.bc.buf[..], log.bc.disk, i);
    }

    method StoreAndLog(i: nat, data: Block) returns (ok: bool)
      requires log.Valid() && i < NBUF
      requires log.bc.buf[i].dev == ROOTDEV && log.bc.buf[i].valid && log.bc.buf[i].locked
      requires log.bc.buf[i].blockno < |log.bc.disk| && !log.g.InLog(log.bc.buf[i].blockno)
      modifies log`n, log.block, log.bc`view, log.bc.buf
      ensures ok == (old(log.n) < LOGSIZE && old(log.n) < log.g.size - 1 && log.outstanding >= 1)
      ensures log.Valid() && |old(log.bc.view)| == |log.bc.disk|
      ensures !ok ==> log.n == old(log.n)
      ensures ok ==> && log.bc.buf[..] == old(log.bc.buf[..])[i := old(log.bc.buf[i]).(data := data, dirty := true)]
                     && log.bc.view == old(log.bc.view)[old(log.bc.buf[i].blockno) := data]
                     && log.block[..log.n] == Absorb(old(log.block[..log.n]), old(log.bc.buf[i].blockno))
    {
      hide Linked, RecentFirst, Pinned, Coherent;
      ghost var bs := log.bc.buf[..];
      log.bc.Store(i, data);
      PinnedData(bs, i, data);
      ok := log.LogWrite(i);
    }

    /** The holder of a buffer changes its data and calls log_write, within its MAXOPBLOCKS blocks. It panics exactly
        when the log is full. */
    method Write(ghost op: G.Op, i: nat, data: Block) returns (ok: bool)
      requires Running() && i < NBUF && op in Now(ss).ops
      requires log.bc.buf[i].dev == ROOTDEV && log.bc.buf[i].valid && log.bc.buf[i].locked
      requires !log.g.InLog(log.bc.buf[i].blockno) && |Now(ss).ops[op] + {log.bc.buf[i].blockno}| <= MAXOPBLOCKS
      modifies this`ss, this`steps, log`n, log.block, log.bc`view, log.bc.buf
      ensures ok == !G.LogWritePanics(log.g, old(Now(ss)))
      ensures ok ==> Running() && G.Enabled(log.g, old(Now(ss)), G.LogWrite(op, old(log.bc.buf[i].blockno), data))
                     && ss == old(ss) + [G.Do(log.g, old(Now(ss)), G.LogWrite(op, old(log.bc.buf[i].blockno), data))]
      ensures ok ==> && old(log.bc.buf[i].blockno) < |log.bc.disk| == |old(log.bc.view)|
                     && log.bc.view == old(log.bc.view)[old(log.bc.buf[i].blockno) := data]
                     && log.bc.buf[..] == old(log.bc.buf[..])[i := old(log.bc.buf[i]).(data := data, dirty := true)]
      ensures !ok ==> ss == old(ss) && steps == old(steps) && log.n == old(log.n)
    {
      hide G.Inv, Recovered, WellFormed, G.Do, Linked, RecentFirst, Pinned, Counting.Elems, Idle;
      ghost var s, b, bs := Now(ss), log.bc.buf[i].blockno, log.bc.buf[..];
      assert BufOk(bs[i], log.bc.disk, log.bc.view);
      G.RunInv(log.g, d0, ss, steps, |ss| - 1);
      Rested(log.g, s, Recovered(log.g, d0));
      ok := StoreAndLog(i, data);
      if ok {
        WriteAgrees(log.g, s, old(log.bc.disk), old(log.bc.view), bs, old(log.block[..log.n]), log.outstanding, op, i,
                    data);
        G.RunExtends(log.g, d0, ss, steps, G.LogWrite(op, b, data));
        ss, steps := ss + [G.Do(log.g, s, G.LogWrite(op, b, data))], steps + [G.LogWrite(op, b, data)];
      }
    }

    /** recover_from_log at boot: it completes, and its writes are steps of the run. */
    method Recover()
      requires Starting()
      modifies this`ss, this`steps, log`n, log.block, log.bc, log.bc.buf
      ensures Running() && old(ss) <= ss && log.outstanding == 0 && log.n == 0 && log.bc.view == log.bc.disk
      ensures Quiet(log.bc.buf[..]) && Settles(ss, |old(ss)| - 1, old(Now(ss)).hist, old(Now(ss)).durable)
      ensures Now(ss).durable == |Now(ss).hist|
      ensures old(log.bc.writes) <= log.bc.writes
      ensures Passes(ss, |old(ss)| - 1, old(log.bc.disk), log.bc.writes[|old(log.bc.writes)|..])
    {
      hide G.Inv, Recovered, WellFormed, G.Do, Linked, RecentFirst, Pinned, Counting.Elems, Idle, Apply, AtStart,
           RecoveryWrites, Quiet, Settles;
      ghost var s := Now(ss);
      ghost var t := Below(|log.bc.disk|);
      G.RunInv(log.g, d0, ss, steps, |ss| - 1);
      RecoveringFacts(log.g, s, Recovered(log.g, d0));
      QuietIdle(log.bc.buf[..], log.bc.disk, log.bc.view, t);
      var ok;
      ghost var k;
      ok, k := log.Recover(t);
      assert RecoveryWrites(log.g, s.disk)[..k] == RecoveryWrites(log.g, s.disk);
      ghost var ts, us := CompleteRun(log.g, d0, ss, steps, log.bc.disk, log.bc.view, log.bc.buf[..], t);
      ss, steps := ts, us;
    }

    /** end_op of the last outstanding call, which commits: each disk write is a step of the run. It completes exactly
        if bread finds a buffer for every log block it needs; with no buffer in use, exactly if fewer than NBUF blocks
        are logged. */
    method EndLast(ghost op: G.Op, ghost t: set<nat>) returns (ok: bool)
      requires Running() && op in Now(ss).ops && log.outstanding == 1
      requires Idle(log.bc.buf[..], log.bc.disk, t) && log.Covers(t, log.block[..log.n])
      modifies this`ss, this`steps, log, log.bc, log.bc.buf
      ensures G.IsRun(log.g, d0, ss, steps) && old(ss) <= ss && old(log.bc.writes) <= log.bc.writes
      ensures Passes(ss, |old(ss)|, old(log.bc.disk), log.bc.writes[|old(log.bc.writes)|..])
      ensures ok ==> Running() && Now(ss).hist == old(Now(ss).hist) + [G.End(op)] && Now(ss).durable == |Now(ss).hist|
      ensures Settles(ss, |old(ss)|, old(Now(ss)).hist + [G.End(op)], old(Now(ss)).durable)
      ensures ok ==> log.outstanding == 0 && Now(ss).ops == map[]
      ensures ok ==> log.bc.view == log.bc.disk && (old(Quiet(log.bc.buf[..])) ==> Quiet(log.bc.buf[..]))
      ensures ok ==> SameHomes(log.g, log.bc.view, old(log.bc.view))
      ensures ok <==> old(log.n == 0 || log.AllReadable())
      ensures old(Quiet(log.bc.buf[..])) ==> (ok <==> old(log.n) < NBUF)
    {
      hide Linked, RecentFirst, Coherent, Pinned, Counting.Elems, Counting.Distinct, Idle, Quiet, Apply, AtStart,
           Passes, Plan, CommitWrites, SameHomes, Installed, HeaderCount, G.IsRun, CanRead, ReadsRange;
      ghost var g, w0 := log.g, log.bc.writes;
      ss, steps := EndRun(g, d0, ss, steps, log.bc.disk, log.bc.view, log.bc.buf[..], log.block[..log.n], op);
      ghost var ws := Plan(g, Now(ss));
      ghost var k;
      ok, k := log.EndOp(t);
      assert log.bc.writes[|w0|..] == ws[..k];
      if ok {
        log.AllOnDisk(t);
        assert ws[..k] == ws;
        ss, steps := CompleteRun(g, d0, ss, steps, log.bc.disk, log.bc.view, log.bc.buf[..], t);
      } else {
        ss, steps := PlannedRun(g, d0, ss, steps, k);
      }
    }

    /** end_op while other calls are outstanding: nothing reaches the disk. */
    method End(ghost op: G.Op) returns (ok: bool)
      requires Running() && op in Now(ss).ops && log.outstanding > 1
      modifies this`ss, this`steps, log, log.bc, log.bc.buf
      ensures ok && Running() && log.bc.disk == old(log.bc.disk) && log.bc.writes == old(log.bc.writes)
      ensures log.bc.view == old(log.bc.view) && log.bc.buf[..] == old(log.bc.buf[..])
      ensures ss == old(ss) + [G.Do(log.g, old(Now(ss)), G.EndOp(op))]
    {
      hide G.Inv, Recovered, WellFormed, G.Do, Linked, RecentFirst, Coherent, Pinned, Counting.Elems, Idle;
      ghost var s := Now(ss);
      EndAgrees(log.g, s, log.bc.disk, log.bc.view, log.bc.buf[..], log.block[..log.n], log.outstanding, op);
      G.RunExtends(log.g, d0, ss, steps, G.EndOp(op));
      ss, steps := ss + [G.Do(log.g, s, G.EndOp(op))], steps + [G.EndOp(op)];
      ghost var k;
      ok, k := log.EndOp({});
    }
  }
}
