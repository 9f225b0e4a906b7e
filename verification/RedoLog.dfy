/** The on-disk redo log: what a recovery would make of a disk, and the exact sequences of
    single-block writes that recovery and commit issue. A crash may cut such a sequence
    after any write. */
module RedoLog {
  import opened Blocks

  const MAXOPBLOCKS: nat := 10
  const LOGSIZE: nat := 3 * MAXOPBLOCKS

  type Disk = seq<Block>

  datatype Write = Write(bno: nat, data: Block)

  /** Where the log lives: block `start` is the header, the next `size - 1` blocks hold data. */
  datatype Geometry = Geometry(start: nat, size: nat) {
    predicate Fits(d: Disk) {
      0 < size && start + size <= |d| < WORD_LIMIT
    }

    predicate InLog(b: int) {
      start <= b < start + size
    }

    /** A list of block numbers that the header and the data area can hold, all of them homes. */
    predicate Loggable(d: Disk, lh: seq<nat>) {
      && |lh| <= LOGSIZE
      && |lh| <= size - 1
      && forall i :: 0 <= i < |lh| ==> lh[i] < |d| && !InLog(lh[i])
    }
  }

  function Apply(d: Disk, ws: seq<Write>): (r: Disk)
    requires forall i :: 0 <= i < |ws| ==> ws[i].bno < |d|
    ensures |r| == |d|
    decreases |ws|
  {
    if ws == [] then d
    else Apply(d, ws[..|ws| - 1])[ws[|ws| - 1].bno := ws[|ws| - 1].data]
  }

  predicate Targets(ws: seq<Write>, b: int) {
    exists i :: 0 <= i < |ws| && ws[i].bno == b
  }

  ghost predicate SameHomes(g: Geometry, d: Disk, e: Disk) {
    |d| == |e| && forall b :: 0 <= b < |d| && !g.InLog(b) ==> d[b] == e[b]
  }

  // ---- header ----

  function HeaderCount(h: Block): Word {
    GetWord(h, 0)
  }

  function HeaderBlocks(h: Block): (lh: seq<nat>)
    requires HeaderCount(h) <= LOGSIZE
  {
    GetWords(h, 1, HeaderCount(h))
  }

  /** The header block after `n` and the first `n` entries are stored over its old contents. */
  function PutHeader(h: Block, lh: seq<nat>): (r: Block)
    requires |lh| <= LOGSIZE && forall i :: 0 <= i < |lh| ==> lh[i] < WORD_LIMIT
    ensures HeaderCount(r) == |lh|
    ensures HeaderBlocks(r) == lh
  {
    SetWords(SetWord(h, 0, |lh|), 1, lh)
  }

  /** Where they are: the count is word 0, the numbers follow, and the rest of the block stays. */
  lemma HeaderWords(h: Block, lh: seq<nat>)
    requires |lh| <= LOGSIZE && forall i :: 0 <= i < |lh| ==> lh[i] < WORD_LIMIT
    ensures GetWord(PutHeader(h, lh), 0) == |lh|
    ensures forall i: nat :: i < |lh| ==> GetWord(PutHeader(h, lh), 1 + i) == lh[i]
    ensures forall k: nat :: |lh| < k < WORDS ==> GetWord(PutHeader(h, lh), k) == GetWord(h, k)
  {
    hide Blocks.GetWord, Blocks.SetWord;
  }

  ghost predicate WellFormed(g: Geometry, d: Disk) {
    && g.Fits(d)
    && HeaderCount(d[g.start]) <= LOGSIZE
    && g.Loggable(d, HeaderBlocks(d[g.start]))
  }

  /** The logged block numbers after log_write(b): absorbed when b is already there. */
  function Absorb(lh: seq<nat>, b: nat): (r: seq<nat>) {
    if b in lh then lh else lh + [b]
  }

  // ---- recovery ----

  /** install_trans: block `start + 1 + i` is copied to the i-th logged home. */
  function InstallWrites(g: Geometry, d: Disk, lh: seq<nat>): (ws: seq<Write>)
    requires g.Fits(d) && |lh| <= g.size - 1
    ensures |ws| == |lh|
  {
    seq(|lh|, i requires 0 <= i < |lh| => Write(lh[i], d[g.start + 1 + i]))
  }

  function RecoveryWrites(g: Geometry, d: Disk): (ws: seq<Write>)
    requires WellFormed(g, d)
    ensures |ws| == HeaderCount(d[g.start]) + 1
    ensures forall i :: 0 <= i < |ws| ==> ws[i].bno < |d|
  {
    InstallWrites(g, d, HeaderBlocks(d[g.start])) + [Write(g.start, PutHeader(d[g.start], []))]
  }

  function Recovered(g: Geometry, d: Disk): (r: Disk)
    requires WellFormed(g, d)
  {
    Apply(d, RecoveryWrites(g, d))
  }

  // ---- commit ----

  function LogWrites(g: Geometry, view: Disk, lh: seq<nat>): (ws: seq<Write>)
    requires forall i :: 0 <= i < |lh| ==> lh[i] < |view|
  {
    seq(|lh|, i requires 0 <= i < |lh| => Write(g.start + 1 + i, view[lh[i]]))
  }

  function HomeWrites(view: Disk, lh: seq<nat>): (ws: seq<Write>)
    requires forall i :: 0 <= i < |lh| ==> lh[i] < |view|
  {
    seq(|lh|, i requires 0 <= i < |lh| => Write(lh[i], view[lh[i]]))
  }

  /** Every disk write of commit(), in order, when the cached view of the disk is `view`. */
  function CommitWrites(g: Geometry, d: Disk, view: Disk, lh: seq<nat>): (ws: seq<Write>)
    requires g.Fits(d) && g.Loggable(d, lh) && |view| == |d|
    ensures |ws| == if lh == [] then 0 else 2 * |lh| + 2
    ensures forall i :: 0 <= i < |ws| ==> ws[i].bno < |d|
  {
    if lh == [] then []
    else
      var head := PutHeader(d[g.start], lh);
      LogWrites(g, view, lh) + [Write(g.start, head)]
      + HomeWrites(view, lh) + [Write(g.start, PutHeader(head, []))]
  }

  // ---- facts about applying writes ----

  lemma {:induction false} ApplyUntouched(d: Disk, ws: seq<Write>, b: nat)
    requires forall i :: 0 <= i < |ws| ==> ws[i].bno < |d|
    requires b < |d| && !Targets(ws, b)
    ensures Apply(d, ws)[b] == d[b]
  {
    if ws != [] {
      var p := ws[..|ws| - 1];
      assert ws[|ws| - 1].bno != b;
      assert forall i :: 0 <= i < |p| ==> p[i] == ws[i];
      ApplyUntouched(d, p, b);
    }
  }

  /** What a block holds after `ws` does not depend on what it held before, once `ws` writes it. */
  lemma {:induction false} ApplyForgets(d: Disk, e: Disk, ws: seq<Write>, b: nat)
    requires |d| == |e| && forall i :: 0 <= i < |ws| ==> ws[i].bno < |d|
    requires b < |d| && (d[b] == e[b] || Targets(ws, b))
    ensures Apply(d, ws)[b] == Apply(e, ws)[b]
  {
    if ws != [] {
      var p := ws[..|ws| - 1];
      if ws[|ws| - 1].bno != b {
        if Targets(ws, b) {
          var i :| 0 <= i < |ws| && ws[i].bno == b;
          assert p[i].bno == b;
        }
        ApplyForgets(d, e, p, b);
      }
    }
  }

  lemma {:induction false} ApplyConcat(d: Disk, ws: seq<Write>, vs: seq<Write>)
    requires forall i :: 0 <= i < |ws| ==> ws[i].bno < |d|
    requires forall i :: 0 <= i < |vs| ==> vs[i].bno < |d|
    ensures forall i :: 0 <= i < |ws + vs| ==> (ws + vs)[i].bno < |d|
    ensures Apply(d, ws + vs) == Apply(Apply(d, ws), vs)
  {
    if vs == [] {
      assert ws + vs == ws;
    } else {
      var q := vs[..|vs| - 1];
      ApplyConcat(d, ws, q);
      assert (ws + vs)[..|ws + vs| - 1] == ws + q;
    }
  }

  /** Replaying writes over a disk on which some of them already happened changes nothing. */
  lemma {:induction false} ApplyPrefixAgain(d: Disk, ws: seq<Write>, k: nat)
    requires k <= |ws| && forall i :: 0 <= i < |ws| ==> ws[i].bno < |d|
    ensures Apply(Apply(d, ws[..k]), ws) == Apply(d, ws)
  {
    var e := Apply(d, ws[..k]);
    forall b: nat | b < |d|
      ensures Apply(e, ws)[b] == Apply(d, ws)[b]
    {
      if !Targets(ws, b) {
        ApplyUntouched(d, ws[..k], b);
      }
      ApplyForgets(e, d, ws, b);
    }
  }

  // ---- crash during recovery ----

  /** Recovery can be cut after any of its writes: recovering the resulting disk gives the
      same homes as recovering the original one. */
  lemma RecoveryCrash(g: Geometry, d: Disk, k: nat)
    requires WellFormed(g, d) && k <= |RecoveryWrites(g, d)|
    ensures var e := Apply(d, RecoveryWrites(g, d)[..k]);
            && WellFormed(g, e)
            && SameHomes(g, Recovered(g, e), Recovered(g, d))
            && (k == |RecoveryWrites(g, d)| ==> HeaderCount(e[g.start]) == 0 && SameHomes(g, e, Recovered(g, d)))
  {
    var lh := HeaderBlocks(d[g.start]);
    var ws := InstallWrites(g, d, lh);
    var clear := Write(g.start, PutHeader(d[g.start], []));
    var all := RecoveryWrites(g, d);
    var n := |lh|;
    var e := Apply(d, all[..k]);
    if k <= n {
      assert all[..k] == ws[..k];
      InstallKeepsLog(g, d, lh, ws[..k]);
      assert e[g.start] == d[g.start];
      assert InstallWrites(g, e, lh) == ws;
      assert RecoveryWrites(g, e) == all;
      ApplyPrefixAgain(d, all, k);
    } else {
      assert all[..k] == all;
      assert all[..n] == ws;
      assert e == Apply(d, ws)[g.start := clear.data];
      assert HeaderCount(e[g.start]) == 0;
      ClearedRecovers(g, e);
    }
  }

  /** A disk with an empty header recovers to itself, apart from the log region. */
  lemma ClearedRecovers(g: Geometry, d: Disk)
    requires g.Fits(d) && HeaderCount(d[g.start]) == 0
    ensures WellFormed(g, d) && SameHomes(g, Recovered(g, d), d)
  {
    hide PutHeader, Blocks.GetWord;
    var ws := RecoveryWrites(g, d);
    assert HeaderBlocks(d[g.start]) == [];
    assert InstallWrites(g, d, []) == [];
    assert ws == [Write(g.start, PutHeader(d[g.start], []))];
    forall b: nat | b < |d| && !g.InLog(b)
      ensures Recovered(g, d)[b] == d[b]
    {
      ApplyUntouched(d, ws, b);
    }
  }

  lemma InstallKeepsLog(g: Geometry, d: Disk, lh: seq<nat>, ws: seq<Write>)
    requires g.Fits(d) && g.Loggable(d, lh)
    requires forall i :: 0 <= i < |ws| ==> ws[i].bno < |d| && !g.InLog(ws[i].bno)
    ensures forall b :: g.InLog(b) ==> Apply(d, ws)[b] == d[b]
  {
    forall b | g.InLog(b)
      ensures Apply(d, ws)[b] == d[b]
    {
      ApplyUntouched(d, ws, b);
    }
  }

  /** The disks that successive crashes leave behind when each restart runs recovery and is
      cut after `ks[i]` of its writes (or after all of them). */
  ghost predicate CrashChain(g: Geometry, d: Disk, ks: seq<nat>, e: Disk)
    decreases |ks|
  {
    if ks == [] then d == e
    else
      && WellFormed(g, d)
      && ks[0] <= |RecoveryWrites(g, d)|
      && CrashChain(g, Apply(d, RecoveryWrites(g, d)[..ks[0]]), ks[1..], e)
  }

  /** However often recovery itself is interrupted, the homes it finally produces are the ones
      an uninterrupted recovery would have produced. */
  lemma {:induction false} RecoveryIdempotent(g: Geometry, d: Disk, ks: seq<nat>, e: Disk)
    requires WellFormed(g, d) && CrashChain(g, d, ks, e)
    ensures WellFormed(g, e) && SameHomes(g, Recovered(g, e), Recovered(g, d))
    decreases |ks|
  {
    if ks != [] {
      RecoveryCrash(g, d, ks[0]);
      RecoveryIdempotent(g, Apply(d, RecoveryWrites(g, d)[..ks[0]]), ks[1..], e);
    }
  }

  // ---- crash during commit ----

  /** The homes after the transaction: logged blocks take their cached contents. */
  ghost predicate Installed(g: Geometry, d: Disk, view: Disk, lh: seq<nat>, e: Disk) {
    |e| == |d| == |view| &&
    forall b :: 0 <= b < |d| && !g.InLog(b) ==> e[b] == if b in lh then view[b] else d[b]
  }

  lemma {:induction false} HomeWritesInstall(d: Disk, view: Disk, lh: seq<nat>, b: nat)
    requires |view| == |d| && (forall i :: 0 <= i < |lh| ==> lh[i] < |d|) && b < |d|
    ensures Apply(d, HomeWrites(view, lh))[b] == if b in lh then view[b] else d[b]
  {
    if lh != [] {
      var p := lh[..|lh| - 1];
      HomeWritesInstall(d, view, p, b);
      assert HomeWrites(view, lh)[..|lh| - 1] == HomeWrites(view, p);
      assert lh == p + [lh[|lh| - 1]];
    } else {
      assert HomeWrites(view, lh) == [];
    }
  }

  /** After all log writes, the data area holds the transaction's contents and nothing else moved. */
  lemma {:induction false} LogWritesFill(g: Geometry, d: Disk, view: Disk, lh: seq<nat>, k: nat)
    requires g.Fits(d) && g.Loggable(d, lh) && |view| == |d| && k <= |lh|
    ensures forall i :: 0 <= i < k ==> LogWrites(g, view, lh)[..k][i].bno < |d|
    ensures var e := Apply(d, LogWrites(g, view, lh)[..k]);
            && (forall i :: 0 <= i < k ==> e[g.start + 1 + i] == view[lh[i]])
            && (forall b :: 0 <= b < |d| && !(g.start < b <= g.start + k) ==> e[b] == d[b])
    decreases k
  {
    var ws := LogWrites(g, view, lh);
    if k > 0 {
      LogWritesFill(g, d, view, lh, k - 1);
      assert ws[..k][..k - 1] == ws[..k - 1];
    }
  }

  /** Crash atomicity of commit: after any number `k` of its writes, recovery yields the old
      homes as long as the header has not been written (`k <= |lh|`), and the complete new
      homes from that single write on. */
  lemma CommitCrash(g: Geometry, d: Disk, view: Disk, lh: seq<nat>, k: nat)
    requires g.Fits(d) && HeaderCount(d[g.start]) == 0
    requires g.Loggable(d, lh) && |view| == |d| && k <= |CommitWrites(g, d, view, lh)|
    ensures var e := Apply(d, CommitWrites(g, d, view, lh)[..k]);
            && WellFormed(g, e)
            && (k <= |lh| ==> SameHomes(g, e, d) && SameHomes(g, Recovered(g, e), d))
            && (k > |lh| ==> Installed(g, d, view, lh, Recovered(g, e)))
            && (k == |CommitWrites(g, d, view, lh)| ==>
                  HeaderCount(e[g.start]) == 0 && Installed(g, d, view, lh, e))
  {
    hide PutHeader, Blocks.GetWord, Apply, InstallWrites;
    if k <= |lh| {
      CommitCrashBefore(g, d, view, lh, k);
    } else {
      CommitCrashAfter(g, d, view, lh, k);
    }
  }

  lemma CommitCrashBefore(g: Geometry, d: Disk, view: Disk, lh: seq<nat>, k: nat)
    requires g.Fits(d) && HeaderCount(d[g.start]) == 0
    requires g.Loggable(d, lh) && |view| == |d| && k <= |CommitWrites(g, d, view, lh)| && k <= |lh|
    ensures var e := Apply(d, CommitWrites(g, d, view, lh)[..k]);
            && WellFormed(g, e) && HeaderCount(e[g.start]) == 0
            && SameHomes(g, e, d) && SameHomes(g, Recovered(g, e), d)
  {
    hide PutHeader, Blocks.GetWord, Apply, RecoveryWrites;
    var all := CommitWrites(g, d, view, lh);
    var ws := LogWrites(g, view, lh);
    assert all[..k] == ws[..k];
    LogWritesFill(g, d, view, lh, k);
    ClearedRecovers(g, Apply(d, all[..k]));
  }

  lemma CommitCrashAfter(g: Geometry, d: Disk, view: Disk, lh: seq<nat>, k: nat)
    requires g.Fits(d) && HeaderCount(d[g.start]) == 0
    requires g.Loggable(d, lh) && |view| == |d| && |lh| < k <= |CommitWrites(g, d, view, lh)|
    ensures var e := Apply(d, CommitWrites(g, d, view, lh)[..k]);
            && WellFormed(g, e)
            && Installed(g, d, view, lh, Recovered(g, e))
            && (k == |CommitWrites(g, d, view, lh)| ==>
                  HeaderCount(e[g.start]) == 0 && Installed(g, d, view, lh, e))
  {
    hide PutHeader, Blocks.GetWord, Apply, CommitWrites, RecoveryWrites, InstallWrites, HomeWrites;
    var all := CommitWrites(g, d, view, lh);
    var n := |lh|;
    var f := Apply(d, all[..n + 1]);
    CommitPoint(g, d, view, lh);
    var todo := all[n + 1..];
    var j := k - (n + 1);
    assert all[..n + 1] + todo[..j] == all[..k];
    ApplyConcat(d, all[..n + 1], todo[..j]);
    RecoveryCrash(g, f, j);
    InstalledByRecovery(g, d, f, view, lh);
  }

  /** Right after the header write the log region describes exactly the transaction. */
  lemma CommitPoint(g: Geometry, d: Disk, view: Disk, lh: seq<nat>)
    requires g.Fits(d) && g.Loggable(d, lh) && |view| == |d| && lh != []
    ensures var f := Apply(d, CommitWrites(g, d, view, lh)[..|lh| + 1]);
            && WellFormed(g, f) && SameHomes(g, f, d)
            && f[g.start] == PutHeader(d[g.start], lh)
            && (forall i :: 0 <= i < |lh| ==> f[g.start + 1 + i] == view[lh[i]])
            && InstallWrites(g, f, lh) == HomeWrites(view, lh)
            && RecoveryWrites(g, f) == CommitWrites(g, d, view, lh)[|lh| + 1..]
  {
    hide PutHeader, Blocks.GetWord;
    var all := CommitWrites(g, d, view, lh);
    var n := |lh|;
    var ws := LogWrites(g, view, lh);
    LogWritesFill(g, d, view, lh, n);
    assert ws[..n] == ws;
    assert all[..n + 1][..n] == ws;
    var f := Apply(d, all[..n + 1]);
    assert f == Apply(d, ws)[g.start := all[n].data];
  }

  lemma InstalledByRecovery(g: Geometry, d: Disk, f: Disk, view: Disk, lh: seq<nat>)
    requires WellFormed(g, f) && SameHomes(g, f, d) && |view| == |d|
    requires HeaderBlocks(f[g.start]) == lh && InstallWrites(g, f, lh) == HomeWrites(view, lh)
    ensures Installed(g, d, view, lh, Recovered(g, f))
  {
    var ws := HomeWrites(view, lh);
    var all := RecoveryWrites(g, f);
    assert all[..|ws|] == ws;
    forall b: nat | b < |d| && !g.InLog(b)
      ensures Recovered(g, f)[b] == if b in lh then view[b] else d[b]
    {
      HomeWritesInstall(f, view, lh, b);
    }
  }
}
