/** acquiresleep, releasesleep, sleep and wakeup on one sleep lock, for any number of processes. A
    step is one shared access; the spin locks lk->lk and ptable.lock are explicit, so a process
    cannot pass an acquire while another holds the lock. */
module SleepLock {

  /** Where a process is. A-points are inside acquiresleep and sleep, R-points inside
      releasesleep and wakeup. */
  datatype Pc =
    | Idle       // outside
    | AcqSpin    // acquire(&lk->lk) at the top of acquiresleep, or after sleeping
    | Test       // holds lk->lk, at while(lk->locked)
    | SleepLk    // in sleep(): holds lk->lk, at acquire(&ptable.lock)
    | SleepBoth  // holds both, at release(lk)
    | SleepPt    // holds ptable.lock, at p->state = SLEEPING; sched()
    | Blocked    // switched out
    | Resumed    // switched in again, holds ptable.lock
    | Take       // holds lk->lk, has set locked, at release(&lk->lk)
    | Holding    // between acquiresleep and releasesleep
    | RelSpin    // at acquire(&lk->lk) in releasesleep
    | Clear      // holds lk->lk, at lk->locked = 0
    | WakeLk     // in wakeup(): holds lk->lk, at acquire(&ptable.lock)
    | WakeBoth   // holds both, at wakeup1
    | WokeBoth   // wakeup1 done, at release(&ptable.lock)
    | RelDone    // holds lk->lk, at its release

  /** `sleeping[p]`: p's state is SLEEPING and its chan is this lock. */
  datatype Sys = Sys(pc: seq<Pc>, sleeping: seq<bool>, locked: bool, pid: nat, spin: int, ptable: int)

  const FREE: int := -1

  predicate Shape(s: Sys) {
    |s.sleeping| == |s.pc|
  }

  function Goto(s: Sys, p: nat, pc: Pc): Sys
    requires p < |s.pc|
  {
    s.(pc := s.pc[p := pc])
  }

  /** Process p takes its next step. */
  ghost predicate Next(s: Sys, p: nat, s': Sys)
    requires Shape(s) && p < |s.pc|
  {
    match s.pc[p]
    case Idle => s' == Goto(s, p, AcqSpin)
    case AcqSpin => s.spin == FREE && s' == Goto(s, p, Test).(spin := p)
    case Test => s' == if s.locked then Goto(s, p, SleepLk) else Goto(s, p, Take).(locked := true, pid := p)
    case SleepLk => s.ptable == FREE && s' == Goto(s, p, SleepBoth).(ptable := p)
    case SleepBoth => s' == Goto(s, p, SleepPt).(spin := FREE)
    case SleepPt => s' == Goto(s, p, Blocked).(sleeping := s.sleeping[p := true], ptable := FREE)
    case Blocked => !s.sleeping[p] && s.ptable == FREE && s' == Goto(s, p, Resumed).(ptable := p)
    case Resumed => s' == Goto(s, p, AcqSpin).(ptable := FREE)
    case Take => s' == Goto(s, p, Holding).(spin := FREE)
    case Holding => s' == Goto(s, p, RelSpin)
    case RelSpin => s.spin == FREE && s' == Goto(s, p, Clear).(spin := p)
    case Clear => s' == Goto(s, p, WakeLk).(locked := false, pid := |s.pc|)
    case WakeLk => s.ptable == FREE && s' == Goto(s, p, WakeBoth).(ptable := p)
    case WakeBoth => s' == Goto(s, p, WokeBoth).(sleeping := seq(|s.pc|, _ => false))
    case WokeBoth => s' == Goto(s, p, RelDone).(ptable := FREE)
    case RelDone => s' == Goto(s, p, Idle).(spin := FREE)
  }

  /** kill() makes any sleeping process runnable. */
  ghost predicate Killed(s: Sys, p: nat, s': Sys)
    requires Shape(s) && p < |s.pc|
  {
    s.ptable == FREE && s' == s.(sleeping := s.sleeping[p := false])
  }

  function Start(n: nat): Sys {
    Sys(seq(n, _ => Idle), seq(n, _ => false), false, n, FREE, FREE)
  }

  ghost predicate IsRun(n: nat, ss: seq<Sys>, who: seq<nat>) {
    && |ss| == |who| + 1 && ss[0] == Start(n)
    && forall i :: 0 <= i < |who| ==>
         Shape(ss[i]) && who[i] < |ss[i].pc| && (Next(ss[i], who[i], ss[i + 1]) || Killed(ss[i], who[i], ss[i + 1]))
  }

  // ---- invariant ----

  predicate HasSpin(pc: Pc) {
    pc.Test? || pc.SleepLk? || pc.SleepBoth? || pc.Take? || pc.Clear? || pc.WakeLk? || pc.WakeBoth?
      || pc.WokeBoth? || pc.RelDone?
  }

  predicate HasPtable(pc: Pc) {
    pc.SleepBoth? || pc.SleepPt? || pc.Resumed? || pc.WakeBoth? || pc.WokeBoth?
  }

  /** From lk->locked = 1 to lk->locked = 0. */
  predicate Owns(pc: Pc) {
    pc.Take? || pc.Holding? || pc.RelSpin? || pc.Clear?
  }

  /** A releaser that has cleared the lock and has not yet run wakeup1; it still holds lk->lk. */
  predicate WillWake(pc: Pc) {
    pc.WakeLk? || pc.WakeBoth?
  }

  /** Committed to sleep because it saw the lock taken. */
  predicate Committed(pc: Pc) {
    pc.SleepLk? || pc.SleepBoth? || pc.SleepPt?
  }

  ghost predicate SomeoneWillWake(s: Sys) {
    exists r :: 0 <= r < |s.pc| && WillWake(s.pc[r])
  }

  /** lk->lk is held by the process that is between its acquire and release. */
  ghost predicate SpinInv(s: Sys) {
    && (s.spin == FREE || 0 <= s.spin < |s.pc|)
    && forall p :: 0 <= p < |s.pc| ==> (HasSpin(s.pc[p]) <==> s.spin == p)
  }

  ghost predicate PtableInv(s: Sys) {
    && (s.ptable == FREE || 0 <= s.ptable < |s.pc|)
    && forall p :: 0 <= p < |s.pc| ==> (HasPtable(s.pc[p]) <==> s.ptable == p)
  }

  /** The sleep lock is held by its owner, whose pid it records. */
  ghost predicate OwnerInv(s: Sys) {
    && (s.locked ==> s.pid < |s.pc|)
    && forall p :: 0 <= p < |s.pc| ==> (Owns(s.pc[p]) <==> s.locked && s.pid == p)
  }

  ghost predicate SleepersInv(s: Sys) {
    && Shape(s)
    && (forall p :: 0 <= p < |s.pc| && s.sleeping[p] ==> s.pc[p] == Blocked)
    && (forall p :: 0 <= p < |s.pc| && (s.sleeping[p] || Committed(s.pc[p])) ==> s.locked || SomeoneWillWake(s))
  }

  ghost predicate Inv(s: Sys) {
    SpinInv(s) && PtableInv(s) && OwnerInv(s) && SleepersInv(s)
  }

  /** How a step of p may change who holds a lock: not at all, p takes it, or p gives it up. */
  predicate HandOver(had: bool, has: bool, h: int, h': int, p: int) {
    || (had == has && h' == h)
    || (!had && has && h == FREE && h' == p)
    || (had && !has && h' == FREE)
  }

  lemma StepHandsOver(s: Sys, p: nat, s': Sys)
    requires Shape(s) && p < |s.pc| && Next(s, p, s')
    ensures |s'.pc| == |s.pc| && s'.pc == s.pc[p := s'.pc[p]]
    ensures HandOver(HasSpin(s.pc[p]), HasSpin(s'.pc[p]), s.spin, s'.spin, p)
  {
  }

  lemma StepHandsOverPtable(s: Sys, p: nat, s': Sys)
    requires Shape(s) && p < |s.pc| && Next(s, p, s')
    ensures |s'.pc| == |s.pc| && s'.pc == s.pc[p := s'.pc[p]]
    ensures HandOver(HasPtable(s.pc[p]), HasPtable(s'.pc[p]), s.ptable, s'.ptable, p)
  {
  }

  lemma NextSpin(s: Sys, p: nat, s': Sys)
    requires Shape(s) && SpinInv(s) && p < |s.pc| && Next(s, p, s')
    ensures SpinInv(s')
  {
    hide Next;
    StepHandsOver(s, p, s');
  }

  lemma NextPtable(s: Sys, p: nat, s': Sys)
    requires Shape(s) && PtableInv(s) && p < |s.pc| && Next(s, p, s')
    ensures PtableInv(s')
  {
    hide Next;
    StepHandsOverPtable(s, p, s');
  }

  /** A step changes the owner only by taking the free lock or by clearing one's own. */
  lemma StepOwner(s: Sys, p: nat, s': Sys, q: nat)
    requires Shape(s) && p < |s.pc| && Next(s, p, s') && q < |s.pc|
    requires Owns(s.pc[p]) <==> s.locked && s.pid == p
    requires Owns(s.pc[q]) <==> s.locked && s.pid == q
    requires s.locked ==> s.pid < |s.pc|
    ensures s'.locked ==> s'.pid < |s.pc|
    ensures |s'.pc| == |s.pc| && (Owns(s'.pc[q]) <==> s'.locked && s'.pid == q)
  {
  }

  lemma NextOwner(s: Sys, p: nat, s': Sys)
    requires Shape(s) && OwnerInv(s) && p < |s.pc| && Next(s, p, s')
    ensures OwnerInv(s')
  {
    hide Next, Owns;
    StepOwner(s, p, s', p);
    forall q: nat | q < |s.pc|
      ensures Owns(s'.pc[q]) <==> s'.locked && s'.pid == q
    {
      StepOwner(s, p, s', q);
    }
  }

  /** What steps other than clearing the lock and running wakeup1 do to the sleepers. */
  lemma OrdinaryStep(s: Sys, p: nat, s': Sys)
    requires Shape(s) && p < |s.pc| && Next(s, p, s') && s.pc[p] != Clear && s.pc[p] != WakeBoth
    requires s.sleeping[p] ==> s.pc[p] == Blocked
    ensures |s'.pc| == |s.pc| && Shape(s') && s'.pc == s.pc[p := s'.pc[p]]
    ensures s.locked ==> s'.locked
    ensures WillWake(s.pc[p]) ==> WillWake(s'.pc[p])
    ensures forall q :: 0 <= q < |s.pc| && q != p ==> s'.sleeping[q] == s.sleeping[q]
    ensures s'.sleeping[p] ==> s'.pc[p] == Blocked
    ensures s'.sleeping[p] || Committed(s'.pc[p]) ==> s.locked || s.sleeping[p] || Committed(s.pc[p])
  {
  }

  /** While a releaser holds both spin locks, nobody is on the way to sleep. */
  lemma NobodyCommitted(s: Sys, p: nat)
    requires SpinInv(s) && PtableInv(s) && p < |s.pc| && s.pc[p] == WakeBoth
    ensures forall q :: 0 <= q < |s.pc| ==> !Committed(s.pc[q])
  {
    assert HasSpin(s.pc[p]) && HasPtable(s.pc[p]);
    forall q | 0 <= q < |s.pc| && q != p
      ensures !Committed(s.pc[q])
    {
      assert !HasSpin(s.pc[q]) && !HasPtable(s.pc[q]);
    }
  }

  lemma NextSleepers(s: Sys, p: nat, s': Sys)
    requires Inv(s) && p < |s.pc| && Next(s, p, s')
    ensures SleepersInv(s')
  {
    hide Next, HasSpin, HasPtable, Owns;
    if s.pc[p] == Clear {
      ClearStep(s, p, s');
    } else if s.pc[p] == WakeBoth {
      NobodyCommitted(s, p);
      WakeStep(s, p, s');
    } else {
      OrdinaryStep(s, p, s');
      if SomeoneWillWake(s) {
        var r :| 0 <= r < |s.pc| && WillWake(s.pc[r]);
        assert WillWake(s'.pc[r]);
      }
    }
  }

  lemma ClearStep(s: Sys, p: nat, s': Sys)
    requires SleepersInv(s) && p < |s.pc| && Next(s, p, s') && s.pc[p] == Clear
    ensures SleepersInv(s')
  {
    assert s'.pc == s.pc[p := WakeLk] && s'.sleeping == s.sleeping;
    hide Next;
    assert WillWake(s'.pc[p]);
  }

  lemma WakeStep(s: Sys, p: nat, s': Sys)
    requires SleepersInv(s) && p < |s.pc| && Next(s, p, s') && s.pc[p] == WakeBoth
    requires forall q :: 0 <= q < |s.pc| ==> !Committed(s.pc[q])
    ensures SleepersInv(s')
  {
    assert s'.pc == s.pc[p := WokeBoth] && |s'.sleeping| == |s.pc| && forall q :: 0 <= q < |s.pc| ==> !s'.sleeping[q];
    hide Next;
  }

  lemma NextInv(s: Sys, p: nat, s': Sys)
    requires Inv(s) && p < |s.pc| && Next(s, p, s')
    ensures Inv(s')
  {
    NextSleepers(s, p, s');
    hide Next;
    NextSpin(s, p, s');
    NextPtable(s, p, s');
    NextOwner(s, p, s');
  }

  lemma KilledInv(s: Sys, p: nat, s': Sys)
    requires Inv(s) && p < |s.pc| && Killed(s, p, s')
    ensures Inv(s')
  {
  }

  lemma {:induction false} RunInv(n: nat, ss: seq<Sys>, who: seq<nat>, i: nat)
    requires IsRun(n, ss, who) && i < |ss|
    ensures Inv(ss[i])
  {
    if i > 0 {
      RunInv(n, ss, who, i - 1);
      hide Inv, Next;
      if Next(ss[i - 1], who[i - 1], ss[i]) {
        NextInv(ss[i - 1], who[i - 1], ss[i]);
      } else {
        KilledInv(ss[i - 1], who[i - 1], ss[i]);
      }
    }
  }

  /** At most one process is between acquiresleep and releasesleep, in every run of any number of
      processes, whatever wakeups kill() adds. */
  lemma MutualExclusion(n: nat, ss: seq<Sys>, who: seq<nat>, i: nat, p: nat, q: nat)
    requires IsRun(n, ss, who) && i < |ss| && p < |ss[i].pc| && q < |ss[i].pc|
    requires ss[i].pc[p] == Holding && ss[i].pc[q] == Holding
    ensures p == q
  {
    RunInv(n, ss, who, i);
    hide Next;
    assert Owns(ss[i].pc[p]) && Owns(ss[i].pc[q]);
  }

  /** No lost wakeup: a process asleep on the lock means that the lock is held, or that a releaser
      still holding lk->lk has its wakeup1 ahead of it. */
  lemma NoLostWakeup(n: nat, ss: seq<Sys>, who: seq<nat>, i: nat, p: nat)
    requires IsRun(n, ss, who) && i < |ss| && p < |ss[i].pc| && p < |ss[i].sleeping| && ss[i].sleeping[p]
    ensures ss[i].locked || exists r :: 0 <= r < |ss[i].pc| && WillWake(ss[i].pc[r]) && ss[i].spin == r
  {
    RunInv(n, ss, who, i);
    hide Next;
    if !ss[i].locked {
      var r :| 0 <= r < |ss[i].pc| && WillWake(ss[i].pc[r]);
      assert HasSpin(ss[i].pc[r]);
    }
  }

  /** holdingsleep is right: locked with this pid exactly when the process owns the lock. */
  lemma HoldingSleep(n: nat, ss: seq<Sys>, who: seq<nat>, i: nat, p: nat)
    requires IsRun(n, ss, who) && i < |ss| && p < |ss[i].pc|
    ensures ss[i].locked && ss[i].pid == p <==> Owns(ss[i].pc[p])
  {
    RunInv(n, ss, who, i);
    hide Next;
  }
}
