/** File-system calls over the log: the blocks that writei and itrunc change go through begin_op, bread, log_write,
    brelse and end_op, and whatever disk a crash leaves, recovery makes it a consistent file system again. */
module Volume {
  import opened Blocks
  import opened RedoLog
  import opened BufferCache
  import opened Log
  import opened Bitmap
  import opened Inodes
  import opened Dinodes
  import Counting
  import Files
  import Chunks
  import J = Journal
  import G = GroupCommit

  // ---- histories of consistent file systems ----

  /** The log lies below the inodes on a disk of the file system's size. */
  predicate Apart(g: Geometry, sb: Super) {
    sb.Ok() && g.start + g.size <= sb.inodestart
  }

  /** What is durable in s is a consistent file system. */
  ghost predicate DurableOk(sb: Super, n: nat, home0: Disk, s: G.State) {
    s.durable <= |s.hist| && DiskOk(sb, G.Replay(home0, s.hist[..s.durable]), n)
  }

  /** At every moment of the run. */
  ghost predicate AlwaysOk(sb: Super, n: nat, home0: Disk, ss: seq<G.State>) {
    forall i :: 0 <= i < |ss| ==> DurableOk(sb, n, home0, ss[i])
  }

  lemma HomesOk(g: Geometry, sb: Super, n: nat, d: Disk, e: Disk)
    requires Apart(g, sb) && SameHomes(g, d, e) && DiskOk(sb, d, n)
    ensures DiskOk(sb, e, n)
  {
    hide DiskOk;
    assert |d| == sb.size by {
      OkSize(sb, d, n);
    }
    OkAbove(sb, d, e, n);
  }

  lemma OkSize(sb: Super, d: Disk, n: nat)
    requires DiskOk(sb, d, n)
    ensures |d| == sb.size
  {
  }

  /** In such a run, recovering the disk of any moment gives a consistent file system. */
  lemma CrashesOk(g: Geometry, sb: Super, n: nat, d0: Disk, ss: seq<G.State>, steps: seq<G.Step>, i: nat)
    requires G.IsRun(g, d0, ss, steps) && Apart(g, sb) && AlwaysOk(sb, n, Recovered(g, d0), ss) && i < |ss|
    ensures WellFormed(g, ss[i].disk) && DiskOk(sb, Recovered(g, ss[i].disk), n)
  {
    hide DiskOk, WellFormed, Recovered, G.Replay, G.Do, G.Enabled, G.Boot, SameHomes, G.WholeCalls;
    G.CrashSafety(g, d0, ss, steps, i);
    assert DurableOk(sb, n, Recovered(g, d0), ss[i]);
    HomesBack(g, G.Replay(Recovered(g, d0), ss[i].hist[..ss[i].durable]), Recovered(g, ss[i].disk));
    HomesOk(g, sb, n, G.Replay(Recovered(g, d0), ss[i].hist[..ss[i].durable]), Recovered(g, ss[i].disk));
  }

  lemma HomesBack(g: Geometry, d: Disk, e: Disk)
    requires SameHomes(g, e, d)
    ensures SameHomes(g, d, e)
  {
  }

  /** A step that makes nothing durable. */
  lemma StepOk(sb: Super, n: nat, home0: Disk, ss: seq<G.State>, s: G.State)
    requires AlwaysOk(sb, n, home0, ss) && ss != [] && s.durable == J.Now(ss).durable
    requires J.Now(ss).hist <= s.hist
    ensures AlwaysOk(sb, n, home0, ss + [s])
  {
    hide DiskOk, G.Replay;
    var r := J.Now(ss);
    assert DurableOk(sb, n, home0, r);
    assert s.hist[..s.durable] == r.hist[..r.durable];
  }

  /** Steps during which everything may become durable. */
  lemma SettlesOk(sb: Super, n: nat, home0: Disk, ss: seq<G.State>, ts: seq<G.State>, hist: seq<G.Event>)
    requires AlwaysOk(sb, n, home0, ss) && ss != [] && ss <= ts && J.Now(ss).hist <= hist
    requires J.Settles(ts, |ss|, hist, J.Now(ss).durable) && DiskOk(sb, G.Replay(home0, hist), n)
    ensures AlwaysOk(sb, n, home0, ts)
  {
    hide DiskOk, G.Replay;
    var r := J.Now(ss);
    assert DurableOk(sb, n, home0, r);
    forall i | 0 <= i < |ts|
      ensures DurableOk(sb, n, home0, ts[i])
    {
      if i < |ss| {
        assert ts[i] == ss[i];
      } else {
        assert hist[..|hist|] == hist && hist[..r.durable] == r.hist[..r.durable];
      }
    }
  }

  /** A run can be cut anywhere and continued by a power-on. */
  lemma CutOk(sb: Super, n: nat, home0: Disk, ss: seq<G.State>, m: nat, s: G.State)
    requires AlwaysOk(sb, n, home0, ss) && m < |ss|
    requires s.durable == ss[m].durable <= |ss[m].hist| && s.hist == ss[m].hist[..ss[m].durable]
    ensures AlwaysOk(sb, n, home0, ss[..m + 1] + [s])
  {
    hide DiskOk, G.Replay;
    assert DurableOk(sb, n, home0, ss[m]);
    assert s.hist[..s.durable] == ss[m].hist[..ss[m].durable];
  }

  lemma SettlesFrom(ss: seq<G.State>, m: nat, hist: seq<G.Event>, durable: nat)
    requires J.Settles(ss, m, hist, durable)
    ensures J.Settles(ss, m + 1, hist, durable)
  {
  }

  /** After a power-on everything that is left of the history is durable. */
  lemma Restarts(g: Geometry, sb: Super, n: nat, d0: Disk, ss: seq<G.State>, steps: seq<G.Step>)
    requires G.IsRun(g, d0, ss, steps) && AlwaysOk(sb, n, Recovered(g, d0), ss) && J.Now(ss).phase.Recovering?
    ensures DiskOk(sb, G.Replay(Recovered(g, d0), J.Now(ss).hist), n)
  {
    hide DiskOk, WellFormed, Recovered, G.Replay, G.Do, G.Enabled, G.Boot, SameHomes;
    G.RunInv(g, d0, ss, steps, |ss| - 1);
    var s := J.Now(ss);
    assert DurableOk(sb, n, Recovered(g, d0), s);
    assert s.hist[..s.durable] == s.hist;
  }

  /** When everything is durable, what reads return is a consistent file system. */
  lemma ReadsOk(g: Geometry, sb: Super, n: nat, d0: Disk, ss: seq<G.State>, steps: seq<G.Step>)
    requires G.IsRun(g, d0, ss, steps) && Apart(g, sb) && AlwaysOk(sb, n, Recovered(g, d0), ss)
    requires J.Now(ss).phase.Running? && J.Now(ss).durable == |J.Now(ss).hist|
    ensures DiskOk(sb, J.Now(ss).ViewDisk(), n)
  {
    hide DiskOk, WellFormed, Recovered, G.Replay, G.Do, G.Enabled, G.Boot, SameHomes;
    var s := J.Now(ss);
    G.Isolation(g, d0, ss, steps, |ss| - 1);
    assert DurableOk(sb, n, Recovered(g, d0), s);
    assert s.hist[..s.durable] == s.hist;
    HomesBack(g, G.Replay(Recovered(g, d0), s.hist), s.ViewDisk());
    HomesOk(g, sb, n, G.Replay(Recovered(g, d0), s.hist), s.ViewDisk());
  }

  lemma OkParts(sb: Super, d: Disk, n: nat)
    requires DiskOk(sb, d, n)
    ensures sb.Ok() && |d| == sb.size && n <= sb.ninodes && FsOk(sb, d, InodesOf(sb, d, n))
    ensures NoHoles(d, InodesOf(sb, d, n))
  {
  }

  /** What one log_write adds to a run. */
  lemma LogWriteAdds(g: Geometry, s: G.State, op: G.Op, b: nat, data: Block)
    requires G.Enabled(g, s, G.LogWrite(op, b, data))
    ensures var r := G.Do(g, s, G.LogWrite(op, b, data));
            && r.ops == s.ops[op := s.ops[op] + {b}] && r.durable == s.durable && s.hist <= r.hist
  {
  }

  lemma BeginAdds(g: Geometry, s: G.State, op: G.Op)
    requires G.Enabled(g, s, G.BeginOp(op))
    ensures var r := G.Do(g, s, G.BeginOp(op));
            r.ops == s.ops[op := {}] && r.durable == s.durable && s.hist <= r.hist
  {
  }

  lemma EndAdds(g: Geometry, s: G.State, op: G.Op)
    requires G.Enabled(g, s, G.EndOp(op))
    ensures var r := G.Do(g, s, G.EndOp(op));
            r.ops == s.ops - {op} && r.durable == s.durable && s.hist <= r.hist
  {
  }

  /** While a call has logged fewer than its MAXOPBLOCKS blocks, the log has fewer than LOGSIZE. */
  lemma RoomLeft(g: Geometry, d0: Disk, ss: seq<G.State>, steps: seq<G.Step>, op: G.Op, b: nat)
    requires G.IsRun(g, d0, ss, steps) && J.Now(ss).phase.Running? && op in J.Now(ss).ops
    requires |J.Now(ss).ops[op]| < MAXOPBLOCKS
    ensures |J.Now(ss).lh| < LOGSIZE && |Counting.Elems(J.Now(ss).lh)| < NBUF
    ensures |J.Now(ss).ops[op] + {b}| <= MAXOPBLOCKS
  {
    hide G.Do, G.Enabled, G.Boot, WellFormed, Recovered, Counting.Elems, G.Unused, G.CacheInv, G.HistoryInv, G.Replay,
         SameHomes;
    G.RunInv(g, d0, ss, steps, |ss| - 1);
    var s := J.Now(ss);
    G.UnusedAtLeast(s.ops, op);
    Counting.DistinctSize(s.lh);
    assert |s.ops[op] + {b}| <= |s.ops[op]| + 1;
  }

  /** A buffer that was held and released again is as it was but for its data. */
  lemma QuietAgain(bs: seq<Buf>, cs: seq<Buf>, ds: seq<Buf>, es: seq<Buf>, i: nat, b: nat, data: Block)
    requires Quiet(bs) && ReadInto(bs, cs, i, b) && ds == cs[i := cs[i].(data := data, dirty := true)]
    requires OthersSame(ds, es, i) && ds[i].refcnt > 0
    requires SameCore(ds[i].(locked := false, refcnt := ds[i].refcnt - 1), es[i])
    ensures Quiet(es)
  {
    forall j | 0 <= j < NBUF
      ensures es[j].refcnt == 0
    {
      if j != i {
        assert SameCore(bs[j], cs[j]) && SameCore(ds[j], es[j]);
      }
    }
  }

  class Volume {
    const journal: J.Journal
    const fs: Fs
    const n: nat

    /** The log's side: the code and its run agree, nobody holds a buffer, and every disk so far is recoverable to a
        consistent file system. */
    ghost predicate Steady()
      reads journal, journal.log, journal.log.bc, journal.log.bc.buf, journal.log.block
    {
      && journal.Running() && Apart(journal.log.g, fs.sb) && Quiet(journal.log.bc.buf[..])
      && |journal.log.bc.disk| == fs.sb.size
      && AlwaysOk(fs.sb, n, Recovered(journal.log.g, journal.d0), journal.ss)
    }

    /** ... and the file system is what reads through the log return. */
    ghost predicate Valid()
      reads fs, journal, journal.log, journal.log.bc, journal.log.bc.buf, journal.log.block
    {
      && Steady() && fs.Valid() && |fs.itab| == n && fs.dtab == fs.itab && NoHoles(fs.blocks, fs.itab)
      && Holds(fs.sb, journal.log.bc.view, fs.blocks, fs.itab)
    }

    /** What remains when the kernel has stopped: a run, all of whose disks are recoverable. */
    ghost predicate Stopped()
      reads journal
    {
      && G.IsRun(journal.log.g, journal.d0, journal.ss, journal.steps) && Apart(journal.log.g, fs.sb)
      && AlwaysOk(fs.sb, n, Recovered(journal.log.g, journal.d0), journal.ss)
    }

    /** Mounting at boot: recovery, and then the inodes are read from the disk. */
    constructor (journal: J.Journal, sb: Super, n: nat)
      requires journal.Starting() && Apart(journal.log.g, sb) && |journal.log.bc.disk| == sb.size
      requires AlwaysOk(sb, n, Recovered(journal.log.g, journal.d0), journal.ss)
      modifies journal`ss, journal`steps, journal.log`n, journal.log.block, journal.log.bc, journal.log.bc.buf
      ensures Valid() && this.journal == journal && fs.sb == sb && this.n == n && fresh(fs)
      ensures old(journal.ss) <= journal.ss && J.Now(journal.ss).ops == map[]
    {
      hide AlwaysOk, G.Do, G.Enabled, G.Boot, Recovered, WellFormed, J.Settles, J.Passes, DiskOk, FsOk, NoHoles,
           Coherent, Linked, RecentFirst, Pinned, G.Inv, Idle, Quiet, Holds, G.Replay;
      ghost var g, d0, ss0 := journal.log.g, journal.d0, journal.ss;
      Restarts(g, sb, n, d0, ss0, journal.steps);
      journal.Recover();
      SettlesFrom(journal.ss, |ss0| - 1, J.Now(ss0).hist, J.Now(ss0).durable);
      SettlesOk(sb, n, Recovered(g, d0), ss0, journal.ss, J.Now(ss0).hist);
      ReadsOk(g, sb, n, d0, journal.ss, journal.steps);
      OkHolds(sb, journal.log.bc.disk, n);
      OkParts(sb, journal.log.bc.disk, n);
      this.journal, this.n := journal, n;
      fs := new Fs(sb, journal.log.bc.disk, InodesOf(sb, journal.log.bc.disk, n));
    }

    /** bread, change, log_write, brelse of one block that a call on inode i has changed; for an inode block that is
        iupdate. False is log_write's panic, in a log area smaller than LOGSIZE; within the reservation bread always
        finds a buffer. */
    method PutBlock(ghost op: G.Op, b: nat, i: nat, ip: Inode) returns (ok: bool)
      requires Steady() && op in J.Now(journal.ss).ops && Encodable(ip) && |fs.blocks| == fs.sb.size
      requires fs.sb.inodestart <= b < fs.sb.size && |J.Now(journal.ss).ops[op]| < MAXOPBLOCKS
      modifies journal`ss, journal`steps, journal.log`n, journal.log.block, journal.log.bc, journal.log.bc.buf
      ensures old(journal.ss) <= journal.ss && Stopped()
      ensures ok <==> old(journal.log.n) < journal.log.g.size - 1
      ensures !ok ==> Full()
      ensures ok ==>
                && Steady() && b < |old(journal.log.bc.view)|
                && journal.log.bc.view
                   == old(journal.log.bc.view)[b := NewBlock(fs.sb, fs.blocks, i, ip, b, old(journal.log.bc.view)[b])]
                && J.Now(journal.ss).ops == old(J.Now(journal.ss)).ops[op := old(J.Now(journal.ss)).ops[op] + {b}]
    {
      hide Coherent, Linked, RecentFirst, Pinned, AlwaysOk, G.Do, G.Enabled, PutInode, Recovered, WellFormed, J.Agree,
           G.Replay, Idle, CanRead;
      ghost var bs := journal.log.bc.buf[..];
      BufferLeft(op, b);
      J.QuietIdle(bs, journal.log.bc.disk, journal.log.bc.view, {b});
      NotLocked(bs, journal.log.bc.disk, {b}, b);
      var r := journal.Hold(b);
      assert r.Some?;
      ghost var cs := journal.log.bc.buf[..];
      var h := journal.log.bc.buf[r.value].data;
      var data := if b < fs.sb.bmapstart then PutInode(h, i % IPB, ip) else fs.blocks[b];
      ghost var s := J.Now(journal.ss);
      ok := journal.Write(op, r.value, data);
      if !ok {
        return;
      }
      LogWriteAdds(journal.log.g, s, op, b, data);
      StepOk(fs.sb, n, Recovered(journal.log.g, journal.d0), old(journal.ss), J.Now(journal.ss));
      ghost var ds := journal.log.bc.buf[..];
      journal.Release(r.value);
      QuietAgain(bs, cs, ds, journal.log.bc.buf[..], r.value, b, data);
    }

    /** Within the reservation there is a buffer to read any block. */
    lemma BufferLeft(op: G.Op, b: nat)
      requires Steady() && op in J.Now(journal.ss).ops && |J.Now(journal.ss).ops[op]| < MAXOPBLOCKS
      ensures CanRead(journal.log.bc.buf[..], b)
      ensures journal.log.n < LOGSIZE && |J.Now(journal.ss).ops[op] + {b}| <= MAXOPBLOCKS
      ensures |J.Now(journal.ss).lh| == journal.log.n
    {
      hide Coherent, Linked, RecentFirst, Pinned, AlwaysOk, G.Do, G.Enabled, Recovered, WellFormed, Counting.Elems,
           Idle;
      RoomLeft(journal.log.g, journal.d0, journal.ss, journal.steps, op, b);
      AllToRead(journal.log.bc.buf[..], journal.log.bc.disk, journal.log.bc.view, b);
    }

    /** The log area has no room for another block, which takes one smaller than LOGSIZE. */
    ghost predicate Full()
      reads journal.log
    {
      journal.log.n >= journal.log.g.size - 1 && journal.log.g.size <= LOGSIZE
    }

    /** The blocks that a call on inode i has logged go to the log, with their contents at the end of the call. */
    method Flush(ghost op: G.Op, i: nat) returns (ok: bool)
      requires Steady() && op in J.Now(journal.ss).ops && J.Now(journal.ss).ops[op] == {}
      requires i < |fs.itab| && Encodable(fs.itab[i]) && |fs.blocks| == fs.sb.size && |fs.logged| <= MAXOPBLOCKS
      requires forall b :: b in fs.logged ==> fs.sb.inodestart <= b < fs.sb.size
      modifies journal`ss, journal`steps, journal.log`n, journal.log.block, journal.log.bc, journal.log.bc.buf
      ensures old(journal.ss) <= journal.ss && Stopped() && (!ok ==> Full())
      ensures ok ==>
                && Steady() && J.Now(journal.ss).ops == old(J.Now(journal.ss)).ops[op := fs.logged]
                && Written(fs.sb, old(journal.log.bc.view), journal.log.bc.view, fs.blocks, i, fs.itab[i], fs.logged)
    {
      hide Steady, Written, Stopped, NewBlock, Encodable, Flushing;
      SteadyStops();
      ghost var view0, ops0 := journal.log.bc.view, J.Now(journal.ss).ops;
      FlushStart(op, i);
      var todo := fs.logged;
      ghost var done := {};
      while todo != {}
        invariant Steady() && Stopped() && old(journal.ss) <= journal.ss
        invariant done + todo == fs.logged && done !! todo && Flushing(op, i, view0, ops0, done)
        decreases todo
      {
        var b :| b in todo;
        SubsetSize(done + {b}, fs.logged);
        assert |done + {b}| == |done| + 1;
        ok := FlushOne(op, i, b, view0, ops0, done);
        if !ok {
          return;
        }
        todo, done := todo - {b}, done + {b};
      }
      FlushEnd(op, i, view0, ops0);
      ok := true;
    }

    /** The blocks `done` have been logged by the call `op`. */
    ghost predicate Flushing(op: G.Op, i: nat, view0: Disk, ops0: map<G.Op, set<nat>>, done: set<nat>)
      reads fs, journal, journal.log, journal.log.bc
    {
      && i < |fs.itab| && |view0| == |journal.log.bc.view| == fs.sb.size
      && Written(fs.sb, view0, journal.log.bc.view, fs.blocks, i, fs.itab[i], done)
      && journal.ss != [] && J.Now(journal.ss).ops == ops0[op := done]
    }

    lemma FlushStart(op: G.Op, i: nat)
      requires Steady() && op in J.Now(journal.ss).ops && J.Now(journal.ss).ops[op] == {}
      requires i < |fs.itab| && Encodable(fs.itab[i]) && |fs.blocks| == fs.sb.size
      ensures Stopped() && Flushing(op, i, journal.log.bc.view, J.Now(journal.ss).ops, {})
    {
      hide Encodable;
      SteadyStops();
      WrittenNone(fs.sb, journal.log.bc.view, fs.blocks, i, fs.itab[i]);
    }

    lemma FlushEnd(op: G.Op, i: nat, view0: Disk, ops0: map<G.Op, set<nat>>)
      requires Flushing(op, i, view0, ops0, fs.logged)
      ensures i < |fs.itab| && journal.ss != [] && J.Now(journal.ss).ops == ops0[op := fs.logged]
      ensures Written(fs.sb, view0, journal.log.bc.view, fs.blocks, i, fs.itab[i], fs.logged)
    {
      hide Written;
    }

    method FlushOne(ghost op: G.Op, i: nat, b: nat, ghost view0: Disk, ghost ops0: map<G.Op, set<nat>>,
                    ghost done: set<nat>)
      returns (ok: bool)
      requires Steady() && Flushing(op, i, view0, ops0, done) && Encodable(fs.itab[i]) && |fs.blocks| == fs.sb.size
      requires fs.sb.inodestart <= b < fs.sb.size && b !in done && |done| < MAXOPBLOCKS
      modifies journal`ss, journal`steps, journal.log`n, journal.log.block, journal.log.bc, journal.log.bc.buf
      ensures old(journal.ss) <= journal.ss && Stopped() && (!ok ==> Full())
      ensures ok ==> Steady() && Flushing(op, i, view0, ops0, done + {b})
    {
      hide Steady, Written, Stopped, NewBlock, Encodable;
      WrittenMore(fs.sb, view0, journal.log.bc.view, fs.blocks, i, fs.itab[i], done, b);
      ok := PutBlock(op, b, i, fs.itab[i]);
      if ok {
        SteadyStops();
      }
    }

    lemma SteadyStops()
      requires Steady()
      ensures Stopped() && journal.ss != [] && |journal.log.bc.view| == fs.sb.size
    {
    }

    /** begin_op: the call is admitted, or sleeps. */
    method Begin(ghost op: G.Op) returns (admitted: bool)
      requires Valid() && op !in G.Begun(J.Now(journal.ss).hist)
      modifies journal`ss, journal`steps, journal.log`outstanding
      ensures Valid() && old(journal.ss) <= journal.ss
      ensures admitted <==> journal.log.n + (old(journal.log.outstanding) + 1) * MAXOPBLOCKS <= LOGSIZE
      ensures var ops := old(J.Now(journal.ss)).ops;
              J.Now(journal.ss).ops == if admitted then ops[op := {}] else ops
    {
      hide AlwaysOk, G.Do, G.Enabled, Recovered, WellFormed, J.Agree, Holds, NoHoles, FsOk;
      ghost var s := J.Now(journal.ss);
      admitted := journal.Begin(op);
      if admitted {
        BeginAdds(journal.log.g, s, op);
        StepOk(fs.sb, n, Recovered(journal.log.g, journal.d0), old(journal.ss), J.Now(journal.ss));
      }
    }

    /** One writei of at most a chunk inside a call that has logged nothing yet, as filewrite makes them. */
    method Write(ghost op: G.Op, i: nat, off: nat, src: seq<byte>) returns (r: IoResult)
      requires Valid() && op in J.Now(journal.ss).ops && J.Now(journal.ss).ops[op] == {}
      requires i < n && off < WORD_LIMIT && |src| <= Chunks.CHUNK
      modifies fs, journal`ss, journal`steps, journal.log`n, journal.log.block, journal.log.bc, journal.log.bc.buf
      ensures old(journal.ss) <= journal.ss && Stopped()
      ensures r.Failed? <==> off > old(fs.itab)[i].size || off + |src| > MAXSIZE
      ensures r.Failed? ==> && Valid() && fs.blocks == old(fs.blocks) && fs.itab == old(fs.itab)
                            && journal.ss == old(journal.ss)
      ensures r.Done? ==> |FreeBlocks(fs.sb, old(fs.blocks))| >= Needs(old(fs.itab)[i].size, off + |src|)
      ensures r.Panicked? ==> |FreeBlocks(fs.sb, old(fs.blocks))| < Needs(old(fs.itab)[i].size, off + |src|) || Full()
      ensures r.Done? ==>
                && Valid() && fs.itab == old(fs.itab)[i := fs.itab[i]]
                && Contents(fs.blocks, fs.itab[i]) == Overwrite(Contents(old(fs.blocks), old(fs.itab)[i]), off, src)
                && (forall j :: 0 <= j < n && j != i ==> SameFile(old(fs.blocks), fs.blocks, fs.itab[j]))
    {
      hide Steady, FsOk, NoHoles, Holds, Written, Stopped, Encodable, Extent, FreeBlocks, Needs, WriteLog, Owned,
           Lowest, LastTouched, CallTracks, Contents, Overwrite, SameFile;
      SteadyStops();
      HolesNone(fs.blocks, fs.itab, i);
      SizesFit(fs.sb, fs.blocks, fs.itab);
      fs.BeginOp();
      ghost var blocks0, itab0, view0 := fs.blocks, fs.itab, journal.log.bc.view;
      ghost var got;
      r, got := fs.Writei(i, off, src);
      if !r.Done? {
        return;
      }
      Files.ChunkDone(fs.sb, blocks0, itab0, fs.blocks, fs.itab, fs.logged, i, off, |src|, got);
      AllEncodable(fs.sb, fs.blocks, fs.itab, i);
      LoggedIn(fs.sb, i, blocks0, fs.blocks, fs.logged);
      var ok := Flush(op, i);
      if !ok {
        return Panicked;
      }
      WrittenHolds(fs.sb, view0, journal.log.bc.view, blocks0, itab0, fs.blocks, fs.itab, i, fs.logged);
    }

    /** itrunc inside a call that has logged nothing yet, on a disk whose bitmap leaves room in the reservation. */
    method Truncate(ghost op: G.Op, i: nat) returns (ok: bool)
      requires Valid() && op in J.Now(journal.ss).ops && J.Now(journal.ss).ops[op] == {}
      requires i < n && fs.sb.size / BPB + 2 <= MAXOPBLOCKS
      modifies fs, journal`ss, journal`steps, journal.log`n, journal.log.block, journal.log.bc, journal.log.bc.buf
      ensures old(journal.ss) <= journal.ss && Stopped() && (!ok ==> Full())
      ensures ok ==>
                && Valid() && fs.itab == old(fs.itab)[i := RawInode(0, seq(NDIRECT + 1, _ => 0))]
                && (forall j :: 0 <= j < n && j != i ==> SameFile(old(fs.blocks), fs.blocks, fs.itab[j]))
    {
      hide Steady, FsOk, NoHoles, Holds, Written, Stopped, Encodable, Extent, Owned, CallTracks, SameFile, Ptr, OwnedBy;
      SteadyStops();
      fs.BeginOp();
      ghost var blocks0, itab0, view0 := fs.blocks, fs.itab, journal.log.bc.view;
      ok := fs.Itrunc(i);
      SizesFit(fs.sb, fs.blocks, fs.itab);
      AllEncodable(fs.sb, fs.blocks, fs.itab, i);
      LoggedIn(fs.sb, i, blocks0, fs.blocks, fs.logged);
      FewLogged(fs.sb, i, fs.logged);
      ok := Flush(op, i);
      if ok {
        WrittenHolds(fs.sb, view0, journal.log.bc.view, blocks0, itab0, fs.blocks, fs.itab, i, fs.logged);
      }
    }

    /** end_op while other calls are outstanding. */
    method End(ghost op: G.Op)
      requires Valid() && op in J.Now(journal.ss).ops && |J.Now(journal.ss).ops| > 1
      modifies journal`ss, journal`steps, journal.log, journal.log.bc, journal.log.bc.buf
      ensures Valid() && old(journal.ss) <= journal.ss && J.Now(journal.ss).ops == old(J.Now(journal.ss)).ops - {op}
    {
      hide AlwaysOk, G.Do, G.Enabled, Recovered, WellFormed, Holds, NoHoles, FsOk, G.Boot, Idle, Pinned;
      ghost var s := J.Now(journal.ss);
      EndAdds(journal.log.g, s, op);
      var _ := journal.End(op);
      StepOk(fs.sb, n, Recovered(journal.log.g, journal.d0), old(journal.ss), J.Now(journal.ss));
    }

    /** end_op of the last call. It commits, and wherever the power fails meanwhile, recovery gives a consistent file
        system. Without buffers in use it completes exactly if fewer than NBUF blocks are logged. */
    method EndLast(ghost op: G.Op) returns (ok: bool)
      requires Valid() && J.Now(journal.ss).ops.Keys == {op}
      modifies journal`ss, journal`steps, journal.log, journal.log.bc, journal.log.bc.buf
      ensures old(journal.ss) <= journal.ss && Stopped() && old(journal.log.bc.writes) <= journal.log.bc.writes
      ensures Survives(journal.log.g, fs.sb, n, old(journal.log.bc.disk),
                       journal.log.bc.writes[|old(journal.log.bc.writes)|..])
      ensures ok <==> old(journal.log.n) < NBUF
      ensures ok ==> && Valid() && J.Now(journal.ss).ops == map[]
                     && J.Now(journal.ss).durable == |J.Now(journal.ss).hist|
    {
      hide AlwaysOk, G.Do, G.Enabled, Recovered, WellFormed, Holds, NoHoles, FsOk, G.Boot, Idle, Pinned, Quiet, DiskOk,
           J.Settles, J.Passes, Survives, SameHomes, Coherent, Linked, RecentFirst, G.Replay, CanRead, ReadsRange;
      ghost var g, d0, ss0, view0 := journal.log.g, journal.d0, journal.ss, journal.log.bc.view;
      ghost var t := J.Below(|journal.log.bc.disk|);
      J.QuietIdle(journal.log.bc.buf[..], journal.log.bc.disk, view0, t);
      HoldsOk(fs.sb, view0, fs.blocks, fs.itab);
      EndReplays(g, fs.sb, n, d0, ss0, journal.steps, op);
      ok := journal.EndLast(op, t);
      SettlesOk(fs.sb, n, Recovered(g, d0), ss0, journal.ss, J.Now(ss0).hist + [G.End(op)]);
      PassesSurvive(g, fs.sb, n, d0, journal.ss, journal.steps, |ss0|, old(journal.log.bc.disk),
                    journal.log.bc.writes[|old(journal.log.bc.writes)|..]);
      if ok {
        HoldsHomes(g, fs.sb, view0, journal.log.bc.view, fs.blocks, fs.itab);
      }
    }
  }

  /** The power fails at moment m of the run and comes back: the disk of that moment can be mounted again. */
  method Reboot(v: Volume, ghost m: nat, d: Disk) returns (w: Volume)
    requires v.Stopped() && m < |v.journal.ss| && v.journal.ss[m].disk == d
    ensures fresh(w) && w.Valid() && w.n == v.n && w.fs.sb == v.fs.sb && J.Now(w.journal.ss).ops == map[]
    ensures w.journal.d0 == v.journal.d0 && v.journal.ss[..m + 1] <= w.journal.ss
  {
    hide AlwaysOk, G.Do, G.Enabled, G.Boot, Recovered, WellFormed, DiskOk, G.Inv, Coherent, Linked, RecentFirst;
    var g, sb := v.journal.log.g, v.fs.sb;
    ghost var ss, steps := v.journal.ss[..m + 1], v.journal.steps[..m];
    CrashesOk(g, sb, v.n, v.journal.d0, v.journal.ss, v.journal.steps, m);
    OkSize(sb, Recovered(g, d), v.n);
    RecoveredSize(g, d);
    CutRun(g, v.journal.d0, v.journal.ss, v.journal.steps, m);
    var journal := new J.Journal(g, d, v.journal.d0, ss, steps);
    CutOk(sb, v.n, Recovered(g, v.journal.d0), v.journal.ss, m, J.Now(journal.ss));
    assert journal.ss == ss + [J.Now(journal.ss)];
    w := new Volume(journal, sb, v.n);
  }

  lemma RecoveredSize(g: Geometry, d: Disk)
    requires WellFormed(g, d)
    ensures |Recovered(g, d)| == |d|
  {
  }

  lemma CutRun(g: Geometry, d0: Disk, ss: seq<G.State>, steps: seq<G.Step>, m: nat)
    requires G.IsRun(g, d0, ss, steps) && m < |ss|
    ensures G.IsRun(g, d0, ss[..m + 1], steps[..m]) && WellFormed(g, d0)
  {
    hide G.Do, G.Enabled, G.Boot, WellFormed;
  }

  /** The first power-on, with a disk that recovery makes a consistent file system, as mkfs leaves it. */
  lemma FirstOk(g: Geometry, sb: Super, n: nat, d: Disk)
    requires WellFormed(g, d) && DiskOk(sb, Recovered(g, d), n)
    ensures G.IsRun(g, d, [G.Boot(g, d)], []) && AlwaysOk(sb, n, Recovered(g, d), [G.Boot(g, d)])
  {
    hide DiskOk, Recovered, WellFormed;
    assert G.Boot(g, d).hist[..0] == [];
  }

  /** A crash after any of the writes `ws` leaves a disk that recovery makes a consistent file system. */
  ghost predicate Survives(g: Geometry, sb: Super, n: nat, d: Disk, ws: seq<Write>) {
    && (forall i :: 0 <= i < |ws| ==> ws[i].bno < |d|)
    && forall j :: 0 <= j <= |ws| ==> SurvivesAt(g, sb, n, Apply(d, ws[..j]))
  }

  ghost predicate SurvivesAt(g: Geometry, sb: Super, n: nat, d: Disk) {
    WellFormed(g, d) && DiskOk(sb, Recovered(g, d), n)
  }

  lemma PassesSurvive(g: Geometry, sb: Super, n: nat, d0: Disk, ss: seq<G.State>, steps: seq<G.Step>, m: nat, d: Disk,
                      ws: seq<Write>)
    requires G.IsRun(g, d0, ss, steps) && Apart(g, sb) && AlwaysOk(sb, n, Recovered(g, d0), ss)
    requires J.Passes(ss, m, d, ws)
    ensures Survives(g, sb, n, d, ws)
  {
    hide AlwaysOk, G.Do, G.Enabled, G.Boot, WellFormed, Recovered, DiskOk, Apply;
    forall j | 0 <= j <= |ws|
      ensures SurvivesAt(g, sb, n, Apply(d, ws[..j]))
    {
      assert ss[m + j].disk == Apply(d, ws[..m + j - m]);
      CrashesOk(g, sb, n, d0, ss, steps, m + j);
    }
  }

  /** The end of the last call leaves the homes as reads see them. */
  lemma EndReplays(g: Geometry, sb: Super, n: nat, d0: Disk, ss: seq<G.State>, steps: seq<G.Step>, op: G.Op)
    requires G.IsRun(g, d0, ss, steps) && Apart(g, sb) && J.Now(ss).phase.Running?
    requires DiskOk(sb, J.Now(ss).ViewDisk(), n)
    ensures DiskOk(sb, G.Replay(Recovered(g, d0), J.Now(ss).hist + [G.End(op)]), n)
  {
    hide DiskOk, WellFormed, Recovered, G.Do, G.Enabled, G.Boot, SameHomes;
    var s := J.Now(ss);
    G.Isolation(g, d0, ss, steps, |ss| - 1);
    var h := s.hist + [G.End(op)];
    assert h[..|h| - 1] == s.hist;
    HomesOk(g, sb, n, s.ViewDisk(), G.Replay(Recovered(g, d0), s.hist));
  }

  lemma HoldsHomes(g: Geometry, sb: Super, d: Disk, e: Disk, blocks: seq<Block>, itab: seq<Inode>)
    requires Apart(g, sb) && Holds(sb, d, blocks, itab) && SameHomes(g, e, d)
    ensures |e| == sb.size && Holds(sb, e, blocks, itab)
  {
    hide Blocks.GetWord;
    forall j: nat | j < |itab|
      ensures InodesOf(sb, e, |itab|)[j] == itab[j]
    {
      InodeBlockIn(sb, j);
      assert InodesOf(sb, d, |itab|)[j] == itab[j];
    }
    assert InodesOf(sb, e, |itab|) == itab;
  }

  /** Truncation logs the inode's block and bitmap blocks. */
  lemma FewLogged(sb: Super, i: nat, logged: set<nat>)
    requires forall b :: b in logged ==> b == sb.IBlock(i) || sb.InBitmap(b)
    ensures |logged| <= sb.size / BPB + 2
  {
    var rest := logged - {sb.IBlock(i)};
    RangeSize(rest, sb.bmapstart, sb.size / BPB + 1);
    SubsetSize(logged, rest + {sb.IBlock(i)});
  }

  lemma {:induction false} RangeSize(s: set<nat>, lo: nat, k: nat)
    requires forall b :: b in s ==> lo <= b < lo + k
    ensures |s| <= k
    decreases k
  {
    if k == 0 {
      assert s == {};
    } else {
      var t := s - {lo + k - 1};
      RangeSize(t, lo, k - 1);
      SubsetSize(s, t + {lo + k - 1});
    }
  }

  lemma HolesNone(blocks: seq<Block>, itab: seq<Inode>, i: nat)
    requires NoHoles(blocks, itab) && i < |itab|
    ensures itab[i].size <= MAXSIZE && Extent(blocks, itab[i], itab[i].size)
  {
  }

  lemma LoggedIn(sb: Super, i: nat, blocks0: seq<Block>, blocks: seq<Block>, logged: set<nat>)
    requires sb.Ok() && i < sb.ninodes && CallTracks(sb, i, blocks0, {}, blocks, logged)
    ensures forall b :: b in logged ==> sb.inodestart <= b < sb.size
  {
    InodeBlockIn(sb, i);
  }
}
