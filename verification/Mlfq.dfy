/** The multi-level feedback queue scheduler: five ring buffers of process-table slots, searched in
    order of priority. */
module Mlfq {
  import opened Basics
  import Counting

  const NPROC: nat := 64
  const QUEUES: nat := 5
  const AGE: nat := 20

  datatype ProcState = UNUSED | EMBRYO | SLEEPING | RUNNABLE | RUNNING | ZOMBIE

  datatype Proc = Proc(
    state: ProcState, pid: nat, chan: nat, start_time: int, end_time: int, run_time: int, wait_time: int,
    num_run: nat, cur_time: int, ticks: seq<int>, queueNo: int)

  // ---- one ring ----

  predicate RingOk(f: int, r: int, n: int) {
    if f == -1 then r == -1 && n == 0
    else 0 <= f < NPROC && 0 <= r < NPROC && n == if f <= r then r + 1 - f else NPROC - f + r + 1
  }

  /** What a ring holds, from front to rear. */
  function RingSeq(f: int, r: int, row: seq<nat>): (s: seq<nat>)
    requires |row| == NPROC && -1 <= f < NPROC && -1 <= r < NPROC && (f == -1 <==> r == -1)
  {
    if f == -1 then []
    else if f <= r then row[f..r + 1]
    else row[f..] + row[..r + 1]
  }

  predicate Full(f: int, r: int) {
    f == r + 1 || (f == 0 && r == NPROC - 1)
  }

  /** A ring refines a sequence of length n: full means NPROC entries. */
  lemma RingLength(f: int, r: int, n: int, row: seq<nat>)
    requires |row| == NPROC && RingOk(f, r, n)
    ensures |RingSeq(f, r, row)| == n && (Full(f, r) <==> n == NPROC)
  {
  }

  lemma RingPush(f: int, r: int, n: int, row: seq<nat>, p: nat)
    requires |row| == NPROC && RingOk(f, r, n) && !Full(f, r)
    ensures var f', r' := if f == -1 then 0 else f, (r + 1) % NPROC;
            RingOk(f', r', n + 1) && RingSeq(f', r', row[r' := p]) == RingSeq(f, r, row) + [p]
  {
  }

  lemma RingPop(f: int, r: int, n: int, row: seq<nat>)
    requires |row| == NPROC && RingOk(f, r, n) && f != -1
    ensures var f', r' := if f == r then -1 else (f + 1) % NPROC, if f == r then -1 else r;
            RingOk(f', r', n - 1) && RingSeq(f, r, row) == [row[f]] + RingSeq(f', r', row)
  {
  }

  // ---- all rings ----

  /** The rings as sequences, with the invariant that no process is in them twice. */
  ghost predicate RingsOk(rings: seq<seq<nat>>) {
    && |rings| == QUEUES
    && (forall i :: 0 <= i < QUEUES ==> Counting.Distinct(rings[i]) && Counting.Below(rings[i], NPROC))
    && (forall i, j, x :: 0 <= i < j < QUEUES && x in rings[i] ==> x !in rings[j])
  }

  ghost predicate Queued(rings: seq<seq<nat>>, p: nat) {
    exists i :: 0 <= i < |rings| && p in rings[i]
  }

  /** push() on sequences: a process that is already in some ring stays where it is. */
  ghost function Pushed(rings: seq<seq<nat>>, q: nat, p: nat): seq<seq<nat>>
    requires q < |rings|
  {
    if Queued(rings, p) || |rings[q]| == NPROC then rings else rings[q := rings[q] + [p]]
  }

  /** The branch "Queue is Full" is unreachable: NPROC distinct entries leave no process outside. */
  lemma NeverFull(rings: seq<seq<nat>>, q: nat, p: nat)
    requires RingsOk(rings) && q < QUEUES && p < NPROC && !Queued(rings, p)
    ensures |rings[q]| < NPROC
  {
    assert p !in rings[q];
    Counting.Pigeonhole(rings[q] + [p], NPROC);
  }

  lemma PushedOk(rings: seq<seq<nat>>, q: nat, p: nat)
    requires RingsOk(rings) && q < QUEUES && p < NPROC
    ensures RingsOk(Pushed(rings, q, p)) && Queued(Pushed(rings, q, p), p)
    ensures forall x :: Queued(Pushed(rings, q, p), x) <==> Queued(rings, x) || x == p
  {
    if !Queued(rings, p) {
      NeverFull(rings, q, p);
      var r := Pushed(rings, q, p);
      assert forall i :: 0 <= i < QUEUES ==> p !in rings[i];
      assert r[q][|rings[q]|] == p && p in r[q];
      forall x | Queued(rings, x)
        ensures Queued(r, x)
      {
        var i :| 0 <= i < QUEUES && x in rings[i];
        assert x in r[i];
      }
      forall x | Queued(r, x)
        ensures Queued(rings, x) || x == p
      {
        var i :| 0 <= i < QUEUES && x in r[i];
        assert x != p ==> x in rings[i];
      }
    }
  }

  lemma EmptyRings()
    ensures RingsOk([[], [], [], [], []])
  {
  }

  /** The scheduler's whole state: the rings, the process table and the tick counter. */
  datatype Sys = Sys(rings: seq<seq<nat>>, ps: seq<Proc>, now: nat)

  ghost function PushIn(s: Sys, q: nat, p: nat): (r: Sys)
    requires |s.rings| == QUEUES && q < QUEUES && p < |s.ps|
    ensures |r.rings| == QUEUES && |r.ps| == |s.ps| && r.now == s.now
  {
    if Queued(s.rings, p) then s
    else Sys(Pushed(s.rings, q, p), s.ps[p := s.ps[p].(cur_time := 0)], s.now)
  }

  /** push resets the cur_time of exactly the processes `xs`. */
  function Reset(ps: seq<Proc>, xs: set<nat>): (qs: seq<Proc>)
    ensures |qs| == |ps|
  {
    seq(|ps|, x requires 0 <= x < |ps| => if x in xs then ps[x].(cur_time := 0) else ps[x])
  }

  lemma ResetNone(ps: seq<Proc>)
    ensures Reset(ps, {}) == ps
  {
  }

  lemma ResetMore(ps: seq<Proc>, xs: set<nat>, ys: set<nat>)
    ensures Reset(Reset(ps, xs), ys) == Reset(ps, xs + ys)
  {
  }

  lemma ResetOne(ps: seq<Proc>, xs: set<nat>, p: nat)
    requires p < |ps|
    ensures Reset(ps, xs + {p}) == Reset(ps, xs)[p := Reset(ps, xs)[p].(cur_time := 0)]
  {
  }

  /** The entries of the rings before ring q. */
  function Passed(rings: seq<seq<nat>>, q: nat): set<nat>
    requires q <= |rings|
  {
    if q == 0 then {} else Passed(rings, q - 1) + Counting.Elems(rings[q - 1])
  }

  /** The entries a search skips before it comes to entry k of ring q. */
  function Skipped(rings: seq<seq<nat>>, q: nat, k: nat): set<nat>
    requires q < |rings| && k <= |rings[q]|
  {
    Passed(rings, q) + Counting.Elems(rings[q][..k])
  }

  ghost predicate NoneRunnable(ring: seq<nat>, ps: seq<Proc>) {
    |ps| == NPROC && forall k :: 0 <= k < |ring| && ring[k] < NPROC ==> ps[ring[k]].state != RUNNABLE
  }

  /** Entry k of ring q is the first RUNNABLE one of the best ring that has any. */
  ghost predicate FirstRunnable(rings: seq<seq<nat>>, ps: seq<Proc>, q: nat, k: nat) {
    && q < |rings| && k < |rings[q]| && |ps| == NPROC && rings[q][k] < NPROC
    && ps[rings[q][k]].state == RUNNABLE
    && NoneRunnable(rings[q][..k], ps)
    && forall i :: 0 <= i < q ==> NoneRunnable(rings[i], ps)
  }

  /** A ring from which entry k has been taken after the entries before it went to the back. */
  function TakenAt(ring: seq<nat>, k: nat): (r: seq<nat>)
    requires k < |ring|
  {
    ring[k + 1..] + ring[..k]
  }

  function Rotated(ring: seq<nat>, k: nat): (r: seq<nat>)
    requires k <= |ring|
  {
    ring[k..] + ring[..k]
  }

  /** Taking an entry out keeps the rings in order and leaves that process in none of them. */
  lemma TakenOk(rings: seq<seq<nat>>, q: nat, k: nat)
    requires RingsOk(rings) && q < QUEUES && k < |rings[q]|
    ensures RingsOk(rings[q := TakenAt(rings[q], k)])
    ensures !Queued(rings[q := TakenAt(rings[q], k)], rings[q][k])
    ensures forall x :: x != rings[q][k] ==> (Queued(rings[q := TakenAt(rings[q], k)], x) <==> Queued(rings, x))
  {
    var ring, p := rings[q], rings[q][k];
    var r := TakenAt(ring, k);
    var rings' := rings[q := r];
    TakenElems(ring, k);
    assert forall i :: 0 <= i < QUEUES ==> p !in rings'[i];
    forall x | x != p
      ensures Queued(rings', x) <==> Queued(rings, x)
    {
      assert forall i :: 0 <= i < QUEUES ==> (x in rings'[i] <==> x in rings[i]);
    }
  }

  lemma TakenElems(ring: seq<nat>, k: nat)
    requires Counting.Distinct(ring) && Counting.Below(ring, NPROC) && k < |ring|
    ensures Counting.Distinct(TakenAt(ring, k)) && Counting.Below(TakenAt(ring, k), NPROC)
    ensures forall x :: x in TakenAt(ring, k) <==> x in ring && x != ring[k]
  {
    var r, p := TakenAt(ring, k), ring[k];
    var n := |ring| - k - 1;
    assert forall m :: 0 <= m < |r| ==> r[m] == ring[if m < n then k + 1 + m else m - n];
    forall x | x in ring && x != p
      ensures x in r
    {
      var m :| 0 <= m < |ring| && ring[m] == x;
      assert r[if m < k then n + m else m - k - 1] == x;
    }
  }

  /** pop and push back: one turn of a rotation. */
  lemma RotateStep(rings: seq<seq<nat>>, q: nat, k: nat)
    requires RingsOk(rings) && q < QUEUES && k < |rings[q]|
    ensures var rest := rings[q := TakenAt(rings[q], k)];
            && Rotated(rings[q], k)[1..] == TakenAt(rings[q], k) && Rotated(rings[q], k)[0] == rings[q][k]
            && RingsOk(rest)
            && Pushed(rest, q, rings[q][k]) == rings[q := Rotated(rings[q], k + 1)]
            && !Queued(rest, rings[q][k])
  {
    TakenOk(rings, q, k);
    var rest := rings[q := TakenAt(rings[q], k)];
    NeverFull(rest, q, rings[q][k]);
    assert Pushed(rest, q, rings[q][k])[q] == Rotated(rings[q], k + 1);
  }

  // ---- steps ----

  predicate ProcShape(pr: Proc) {
    0 <= pr.queueNo < QUEUES && |pr.ticks| == QUEUES
  }

  predicate SysShape(s: Sys) {
    |s.rings| == QUEUES && |s.ps| == NPROC && forall x :: 0 <= x < NPROC ==> ProcShape(s.ps[x])
  }

  /** One turn of modify_times. */
  ghost function TickOne(s: Sys, p: nat): (r: Sys)
    requires SysShape(s) && p < NPROC
    ensures SysShape(r) && r.now == s.now && forall x :: 0 <= x < NPROC && x != p ==> r.ps[x] == s.ps[x]
  {
    var pr := s.ps[p];
    if pr.state == RUNNING then
      s.(ps := s.ps[p := pr.(run_time := pr.run_time + 1,
                             ticks := pr.ticks[pr.queueNo := pr.ticks[pr.queueNo] + 1],
                             cur_time := pr.cur_time + 1)])
    else if pr.queueNo != 0 && pr.wait_time + 1 > AGE then
      PushIn(s.(ps := s.ps[p := pr.(queueNo := pr.queueNo - 1, cur_time := 0, wait_time := 0)]), pr.queueNo - 1, p)
    else
      s.(ps := s.ps[p := pr.(wait_time := pr.wait_time + 1)])
  }

  ghost function TickTo(s: Sys, n: nat): (r: Sys)
    requires SysShape(s) && n <= NPROC
    ensures SysShape(r) && r.now == s.now && forall x :: n <= x < NPROC ==> r.ps[x] == s.ps[x]
  {
    if n == 0 then s else TickOne(TickTo(s, n - 1), n - 1)
  }

  /** A timer tick: ticks++ and modify_times. */
  ghost function Ticked(s: Sys): (r: Sys)
    requires SysShape(s)
  {
    TickTo(s.(now := s.now + 1), NPROC)
  }

  /** What a tick does to one process, wherever it is queued. */
  function TickedProc(pr: Proc): Proc
    requires ProcShape(pr)
  {
    if pr.state == RUNNING then
      var ticks := pr.ticks[pr.queueNo := pr.ticks[pr.queueNo] + 1];
      pr.(run_time := pr.run_time + 1, ticks := ticks, cur_time := pr.cur_time + 1)
    else if pr.queueNo != 0 && pr.wait_time + 1 > AGE then
      pr.(queueNo := pr.queueNo - 1, cur_time := 0, wait_time := 0)
    else pr.(wait_time := pr.wait_time + 1)
  }

  /** Every ring of s is the front part of the same ring of r. */
  ghost predicate RingsGrow(s: Sys, r: Sys) {
    |s.rings| == |r.rings| == QUEUES && forall q :: 0 <= q < QUEUES ==> s.rings[q] <= r.rings[q]
  }

  lemma TickOneEffect(s: Sys, p: nat)
    requires SysShape(s) && p < NPROC
    ensures TickOne(s, p).ps[p] == TickedProc(s.ps[p]) && RingsGrow(s, TickOne(s, p))
    ensures Queued(s.rings, p) ==> TickOne(s, p).rings == s.rings
  {
  }

  lemma {:induction false} TickToEffect(s: Sys, n: nat)
    requires SysShape(s) && n <= NPROC
    ensures RingsGrow(s, TickTo(s, n)) && forall x :: 0 <= x < n ==> TickTo(s, n).ps[x] == TickedProc(s.ps[x])
  {
    hide TickOne, TickedProc, Queued;
    if n > 0 {
      TickToEffect(s, n - 1);
      TickOneEffect(TickTo(s, n - 1), n - 1);
    }
  }

  /** What a process gains and loses in one tick. */
  ghost predicate OneTick(pr: Proc, qr: Proc)
    requires ProcShape(pr)
  {
    if pr.state == RUNNING then
      qr == pr.(run_time := pr.run_time + 1, cur_time := pr.cur_time + 1,
                ticks := pr.ticks[pr.queueNo := pr.ticks[pr.queueNo] + 1])
    else if pr.queueNo > 0 && pr.wait_time >= AGE then
      qr == pr.(queueNo := pr.queueNo - 1, cur_time := 0, wait_time := 0)
    else
      qr == pr.(wait_time := pr.wait_time + 1)
  }

  /** A timer tick treats every process by itself: a running one gains a tick of running time, of its queue and of
      its slice; another one waits a tick longer, or has waited long enough and rises by one queue. Rings only grow, by
      those who rise and are in none, in the order of the process table; nobody who is in a ring moves. */
  lemma TickEffect(s: Sys)
    requires SysShape(s)
    ensures RingsGrow(s, Ticked(s)) && Ticked(s).now == s.now + 1 && |Ticked(s).ps| == NPROC
    ensures forall x :: 0 <= x < NPROC ==> ProcShape(s.ps[x]) && OneTick(s.ps[x], Ticked(s).ps[x])
    ensures RingsOk(s.rings) ==>
              forall q: nat :: q < QUEUES ==> Ticked(s).rings[q] == s.rings[q] + Ascending(Aging(s, q), NPROC)
    ensures (forall x :: 0 <= x < NPROC && s.ps[x].state != RUNNING ==> Queued(s.rings, x)) ==>
            Ticked(s).rings == s.rings
  {
    hide Queued, Ascending, TickTo, RingsOk, TickedProc, Aging, OneTick;
    var t := s.(now := s.now + 1);
    TickToEffect(t, NPROC);
    forall x | 0 <= x < NPROC
      ensures ProcShape(s.ps[x]) && OneTick(s.ps[x], Ticked(s).ps[x])
    {
      TickedFields(s.ps[x]);
    }
    if RingsOk(s.rings) {
      TickToRings(t, NPROC);
      SameAging(s, t);
    }
    if forall x :: 0 <= x < NPROC && s.ps[x].state != RUNNING ==> Queued(s.rings, x) {
      TickToStill(t, NPROC);
    }
  }

  lemma SameAging(s: Sys, t: Sys)
    requires |s.ps| == NPROC && t.ps == s.ps && t.rings == s.rings
    ensures forall q: nat :: Aging(t, q) == Aging(s, q)
  {
    hide Queued;
  }

  lemma TickedFields(pr: Proc)
    requires ProcShape(pr)
    ensures OneTick(pr, TickedProc(pr))
  {
  }

  lemma {:induction false} TickToStill(s: Sys, n: nat)
    requires SysShape(s) && n <= NPROC
    requires forall x :: 0 <= x < NPROC && s.ps[x].state != RUNNING ==> Queued(s.rings, x)
    ensures TickTo(s, n).rings == s.rings
  {
    if n > 0 {
      TickToStill(s, n - 1);
      TickOneEffect(TickTo(s, n - 1), n - 1);
    }
  }

  // ---- what the loops over the process table do to the rings ----

  /** The members of xs below n, in increasing order. */
  function Ascending(xs: set<nat>, n: nat): (t: seq<nat>)
    ensures forall x :: x in t <==> x in xs && x < n
    ensures forall i :: 0 <= i < |t| ==> t[i] < n
    ensures forall i, j :: 0 <= i < j < |t| ==> t[i] < t[j]
  {
    if n == 0 then [] else if n - 1 in xs then Ascending(xs, n - 1) + [n - 1] else Ascending(xs, n - 1)
  }

  lemma AscendingNext(xs: set<nat>, n: nat)
    ensures Ascending(xs, 0) == []
    ensures Ascending(xs, n + 1) == Ascending(xs, n) + if n in xs then [n] else []
  {
  }

  /** push() of one process into ring q, if it is in none, in full. */
  lemma PushInEffect(s: Sys, q: nat, p: nat)
    requires |s.rings| == QUEUES && q < QUEUES && p < |s.ps| == NPROC && RingsOk(s.rings)
    ensures var r := PushIn(s, q, p);
            && RingsOk(r.rings) && r.now == s.now
            && (forall x :: Queued(r.rings, x) <==> Queued(s.rings, x) || x == p)
            && (Queued(s.rings, p) ==> r == s)
            && (!Queued(s.rings, p) ==>
                  r.rings == s.rings[q := s.rings[q] + [p]] && r.ps == s.ps[p := s.ps[p].(cur_time := 0)])
  {
    hide RingsOk, Queued;
    PushedOk(s.rings, q, p);
    if !Queued(s.rings, p) {
      NeverFull(s.rings, q, p);
    }
  }

  /** Runnable processes that are in no ring, as after a wakeup. */
  ghost function Waiting(s: Sys): set<nat>
    requires |s.ps| == NPROC
  {
    set x: nat | x < NPROC && s.ps[x].state == RUNNABLE && s.ps[x].pid != 0 && !Queued(s.rings, x)
  }

  /** Processes in no ring that a tick ages down to queue q. */
  ghost function Aging(s: Sys, q: nat): set<nat>
    requires |s.ps| == NPROC
  {
    set x: nat | x < NPROC && Ages(s.ps[x]) && s.ps[x].queueNo == q + 1 && !Queued(s.rings, x)
  }

  predicate Ages(pr: Proc) {
    pr.state != RUNNING && pr.queueNo != 0 && pr.wait_time + 1 > AGE
  }

  lemma {:induction false} TickToRings(s: Sys, n: nat)
    requires SysShape(s) && RingsOk(s.rings) && n <= NPROC
    ensures var r := TickTo(s, n);
            && RingsOk(r.rings)
            && (forall q: nat :: q < QUEUES ==> r.rings[q] == s.rings[q] + Ascending(Aging(s, q), n))
            && (forall x: nat :: Queued(r.rings, x) <==> Queued(s.rings, x) || (x < n && Ages(s.ps[x])))
  {
    hide RingsOk, Queued;
    if n > 0 {
      TickToRings(s, n - 1);
      TickRing(s, TickTo(s, n - 1), n - 1);
    }
    forall q: nat | q < QUEUES
      ensures TickTo(s, n).rings[q] == s.rings[q] + Ascending(Aging(s, q), n)
    {
      if n > 0 {
        AscendingNext(Aging(s, q), n - 1);
      }
    }
  }

  lemma TickRing(s: Sys, t: Sys, p: nat)
    requires SysShape(s) && SysShape(t) && RingsOk(t.rings) && p < NPROC && t.ps[p] == s.ps[p]
    requires Queued(t.rings, p) <==> Queued(s.rings, p)
    ensures var r := TickOne(t, p);
            && RingsOk(r.rings)
            && (forall x :: Queued(r.rings, x) <==> Queued(t.rings, x) || (x == p && Ages(s.ps[p])))
            && (forall q: nat :: q < QUEUES ==> r.rings[q] == t.rings[q] + if p in Aging(s, q) then [p] else [])
  {
    hide RingsOk, Queued;
    var pr := t.ps[p];
    if Ages(pr) {
      PushInEffect(t.(ps := t.ps[p := pr.(queueNo := pr.queueNo - 1, cur_time := 0, wait_time := 0)]),
                   pr.queueNo - 1, p);
    }
  }

  lemma {:induction false} RequeuedEffect(s: Sys, n: nat)
    requires SysShape(s) && RingsOk(s.rings) && n <= NPROC
    ensures var r := RequeuedTo(s, n);
            && RingsOk(r.rings) && |r.rings| == QUEUES
            && r.rings == s.rings[0 := s.rings[0] + Ascending(Waiting(s), n)]
            && (forall x: nat :: Queued(r.rings, x) <==> Queued(s.rings, x) || (x < n && x in Waiting(s)))
            && |r.ps| == NPROC
            && forall x: nat :: x < NPROC ==>
                 r.ps[x] == if x < n && x in Waiting(s) then s.ps[x].(cur_time := 0) else s.ps[x]
  {
    hide RingsOk, Queued, Ascending, PushIn;
    if n == 0 {
      AscendingNext(Waiting(s), 0);
      assert s.rings[0] + [] == s.rings[0];
    } else {
      AscendingNext(Waiting(s), n - 1);
      RequeuedEffect(s, n - 1);
      var t := RequeuedTo(s, n - 1);
      PushInEffect(t, 0, n - 1);
      assert n - 1 in Waiting(s) ==> t.rings[0] + [n - 1] == s.rings[0] + (Ascending(Waiting(s), n - 1) + [n - 1]);
      assert s.rings[0] + (Ascending(Waiting(s), n - 1) + []) == s.rings[0] + Ascending(Waiting(s), n - 1);
    }
  }

  /** The loop at the end of a scheduling pass, over the first n processes. */
  ghost function RequeuedTo(s: Sys, n: nat): (r: Sys)
    requires SysShape(s) && n <= NPROC
    ensures SysShape(r) && r.now == s.now
  {
    if n == 0 then s
    else
      var t := RequeuedTo(s, n - 1);
      if t.ps[n - 1].pid == 0 || t.ps[n - 1].state != RUNNABLE then t else PushIn(t, 0, n - 1)
  }

  function FreshProc(pid: nat, now: nat, slot: Proc): Proc {
    Proc(EMBRYO, pid, slot.chan, now, 0, 0, 0, 0, 0, [0, 0, 0, 0, 0], 0)
  }

  /** allocproc: the slot is initialised and goes into the first ring that is not full. */
  ghost function Allocated(s: Sys, p: nat, pid: nat): (r: Sys)
    requires SysShape(s) && p < NPROC
  {
    var t := s.(ps := s.ps[p := FreshProc(pid, s.now, s.ps[p])]);
    if |s.rings[0]| != NPROC then PushIn(t, 0, p)
    else if |s.rings[1]| != NPROC then PushIn(t, 1, p)
    else if |s.rings[2]| != NPROC then PushIn(t, 2, p)
    else if |s.rings[3]| != NPROC then PushIn(t, 3, p)
    else if |s.rings[4]| != NPROC then PushIn(t, 4, p)
    else t
  }

  /** By pigeonhole that is ring 0, unless the slot is in a ring already, which an aborted process leaves behind. */
  lemma AllocatedEffect(s: Sys, p: nat, pid: nat)
    requires SysShape(s) && RingsOk(s.rings) && p < NPROC
    ensures var r := Allocated(s, p, pid);
            && r.ps == s.ps[p := FreshProc(pid, s.now, s.ps[p])]
            && r.rings == if Queued(s.rings, p) then s.rings else s.rings[0 := s.rings[0] + [p]]
  {
    hide RingsOk, Queued;
    if !Queued(s.rings, p) {
      NeverFull(s.rings, 0, p);
    }
  }

  /** yield, after the test in trap() that the slice of a queue above the last is used up. */
  ghost function Yielded(s: Sys, p: nat): (r: Sys)
    requires SysShape(s) && p < NPROC && s.ps[p].queueNo < QUEUES - 1
  {
    var pr := s.ps[p];
    PushIn(s.(ps := s.ps[p := pr.(state := RUNNABLE, cur_time := 0, queueNo := pr.queueNo + 1)]), pr.queueNo + 1, p)
  }

  /** The slice of queue q: 1 << q ticks. */
  function Slice(q: nat): nat {
    if q == 0 then 1 else 2 * Slice(q - 1)
  }

  /** Queue q's slice is 2^q ticks: 1, 2, 4, 8 and 16. */
  lemma SliceDoubles(q: nat)
    ensures Slice(0) == 1 && Slice(4) == 16 && Slice(q + 1) == 2 * Slice(q)
  {
    assert Slice(1) == 2 && Slice(2) == 4 && Slice(3) == 8;
  }

  function Woken(ps: seq<Proc>, chan: nat): (r: seq<Proc>)
    ensures |r| == |ps|
  {
    seq(|ps|, x requires 0 <= x < |ps| =>
      if ps[x].state == SLEEPING && ps[x].chan == chan then ps[x].(state := RUNNABLE) else ps[x])
  }

  datatype Step =
    | Alloc(p: nat, pid: nat)
    | Ready(p: nat)
    | Abort(p: nat)
    | Dispatch(q: nat, k: nat)
    | NoneFound
    | Preempt(p: nat)
    | Sleep(p: nat, chan: nat)
    | Wakeup(chan: nat)
    | Kill(p: nat)
    | Exit(p: nat)
    | Reap(p: nat)
    | Tick
    | Requeue

  ghost predicate SetsState(s: Sys, s': Sys, p: nat, pre: ProcState, post: Proc) {
    p < |s.ps| && s.ps[p].state == pre && s' == s.(ps := s.ps[p := post])
  }

  /** One critical section under ptable.lock. */
  ghost predicate Next(s: Sys, step: Step, s': Sys)
    requires SysShape(s)
  {
    match step
    case Alloc(p, pid) => p < NPROC && pid > 0 && s.ps[p].state == UNUSED && s' == Allocated(s, p, pid)
    case Ready(p) => p < NPROC && SetsState(s, s', p, EMBRYO, s.ps[p].(state := RUNNABLE))
    case Abort(p) => p < NPROC && SetsState(s, s', p, EMBRYO, s.ps[p].(state := UNUSED))
    case Dispatch(q, k) =>
      && FirstRunnable(s.rings, s.ps, q, k)
      && s' == Dispatched(s, q, k)
    case NoneFound =>
      && (forall i :: 0 <= i < QUEUES ==> NoneRunnable(s.rings[i], s.ps))
      && s' == s.(ps := Reset(s.ps, Passed(s.rings, QUEUES)))
    case Preempt(p) =>
      && p < NPROC && s.ps[p].state == RUNNING
      && s.ps[p].queueNo != QUEUES - 1 && s.ps[p].cur_time > Slice(s.ps[p].queueNo)
      && s' == Yielded(s, p)
    case Sleep(p, chan) => p < NPROC && SetsState(s, s', p, RUNNING, s.ps[p].(state := SLEEPING, chan := chan))
    case Wakeup(chan) => s' == s.(ps := Woken(s.ps, chan))
    case Kill(p) => p < NPROC && SetsState(s, s', p, SLEEPING, s.ps[p].(state := RUNNABLE))
    case Exit(p) => p < NPROC && SetsState(s, s', p, RUNNING, s.ps[p].(state := ZOMBIE, end_time := s.now))
    case Reap(p) => p < NPROC && SetsState(s, s', p, ZOMBIE, s.ps[p].(state := UNUSED, pid := 0))
    case Tick => s' == Ticked(s)
    case Requeue => s' == RequeuedTo(s, NPROC)
  }

  /** The chosen process leaves its ring and runs; the skipped entries lose their cur_time, and nothing else
      changes. */
  function Dispatched(s: Sys, q: nat, k: nat): Sys
    requires q < |s.rings| && k < |s.rings[q]| && s.rings[q][k] < NPROC && |s.ps| == NPROC
  {
    var p, ps := s.rings[q][k], Reset(s.ps, Skipped(s.rings, q, k));
    Sys(s.rings[q := TakenAt(s.rings[q], k)],
        ps[p := ps[p].(state := RUNNING, wait_time := 0, num_run := ps[p].num_run + 1)], s.now)
  }

  /** The chosen process is none of those skipped, and is in no ring any more. */
  lemma DispatchedEffect(s: Sys, q: nat, k: nat)
    requires RingsOk(s.rings) && q < QUEUES && k < |s.rings[q]| && |s.ps| == NPROC
    ensures s.rings[q][k] < NPROC && s.rings[q][k] !in Skipped(s.rings, q, k)
    ensures var p, r := s.rings[q][k], Dispatched(s, q, k);
            && !Queued(r.rings, p) && |r.ps| == NPROC
            && r.ps[p] == s.ps[p].(state := RUNNING, wait_time := 0, num_run := s.ps[p].num_run + 1)
            && forall x: nat :: x < NPROC && x != p ==>
                 r.ps[x] == if x in Skipped(s.rings, q, k) then s.ps[x].(cur_time := 0) else s.ps[x]
  {
    NotPassed(s.rings, q, k, q);
    TakenOk(s.rings, q, k);
    hide RingsOk, Queued, TakenAt, Passed;
  }

  lemma {:induction false} NotPassed(rings: seq<seq<nat>>, q: nat, k: nat, i: nat)
    requires RingsOk(rings) && i <= q < QUEUES && k < |rings[q]|
    ensures rings[q][k] < NPROC && rings[q][k] !in Passed(rings, i) && rings[q][k] !in Counting.Elems(rings[q][..k])
  {
    if i > 0 {
      NotPassed(rings, q, k, i - 1);
      assert rings[q][k] !in rings[i - 1];
    }
  }

  // ---- invariant over runs ----

  function Sum5(t: seq<int>): int
    requires |t| == QUEUES
  {
    t[0] + t[1] + t[2] + t[3] + t[4]
  }

  /** The books of one process: per-queue ticks add up to run_time, which never exceeds the time
      since the process was created (for a zombie: until it exited). */
  predicate Account(pr: Proc, now: int) {
    && ProcShape(pr)
    && (forall i :: 0 <= i < QUEUES ==> pr.ticks[i] >= 0)
    && Sum5(pr.ticks) == pr.run_time
    && (pr.state != UNUSED ==> pr.pid != 0)
    && (pr.state != UNUSED && pr.state != ZOMBIE ==> pr.start_time + pr.run_time <= now)
    && (pr.state == ZOMBIE ==> pr.start_time + pr.run_time <= pr.end_time <= now)
  }

  ghost predicate Inv(s: Sys) {
    && SysShape(s) && RingsOk(s.rings)
    && (forall x :: 0 <= x < NPROC ==> Account(s.ps[x], s.now))
    && (forall x :: 0 <= x < NPROC && s.ps[x].state == RUNNING ==> !Queued(s.rings, x))
  }

  lemma PushInInv(s: Sys, q: nat, p: nat)
    requires Inv(s) && q < QUEUES && p < NPROC && s.ps[p].state != RUNNING
    ensures Inv(PushIn(s, q, p)) && Queued(PushIn(s, q, p).rings, p)
    ensures forall x :: Queued(s.rings, x) ==> Queued(PushIn(s, q, p).rings, x)
    ensures forall x :: 0 <= x < NPROC ==> PushIn(s, q, p).ps[x].(cur_time := 0) == s.ps[x].(cur_time := 0)
  {
    hide RingsOk, Queued;
    PushedOk(s.rings, q, p);
  }

  lemma TickOneInv(s: Sys, p: nat)
    requires SysShape(s) && RingsOk(s.rings) && p < NPROC
    requires Account(s.ps[p], s.now - 1)
    ensures RingsOk(TickOne(s, p).rings) && Account(TickOne(s, p).ps[p], s.now)
    ensures TickOne(s, p).ps[p].state == s.ps[p].state
    ensures forall x :: x != p ==> (Queued(TickOne(s, p).rings, x) <==> Queued(s.rings, x))
    ensures s.ps[p].state == RUNNING ==> TickOne(s, p).rings == s.rings
  {
    hide RingsOk, Queued;
    var pr := s.ps[p];
    if pr.state != RUNNING && pr.queueNo != 0 && pr.wait_time + 1 > AGE {
      PushedOk(s.rings, pr.queueNo - 1, p);
    }
  }

  lemma {:induction false} TickToInv(s: Sys, n: nat)
    requires s.now > 0 && Inv(s.(now := s.now - 1)) && n <= NPROC
    ensures var r := TickTo(s, n);
            && RingsOk(r.rings)
            && (forall x :: 0 <= x < n ==> Account(r.ps[x], s.now))
            && (forall x :: 0 <= x < NPROC ==> r.ps[x].state == s.ps[x].state)
            && (forall x :: 0 <= x < NPROC && r.ps[x].state == RUNNING ==> !Queued(r.rings, x))
  {
    hide RingsOk, Queued, Account, TickOne;
    if n > 0 {
      TickToInv(s, n - 1);
      var t := TickTo(s, n - 1);
      assert t.ps[n - 1] == s.ps[n - 1];
      TickOneInv(t, n - 1);
    }
  }

  lemma {:induction false} RequeuedInv(s: Sys, n: nat)
    requires Inv(s) && n <= NPROC
    ensures Inv(RequeuedTo(s, n))
    ensures forall x :: 0 <= x < NPROC ==> RequeuedTo(s, n).ps[x].(cur_time := 0) == s.ps[x].(cur_time := 0)
    ensures forall x :: 0 <= x < n && s.ps[x].state == RUNNABLE ==> Queued(RequeuedTo(s, n).rings, x)
  {
    hide RingsOk, Queued, PushIn;
    if n > 0 {
      RequeuedInv(s, n - 1);
      var t := RequeuedTo(s, n - 1);
      assert t.ps[n - 1].(cur_time := 0) == s.ps[n - 1].(cur_time := 0);
      assert Account(s.ps[n - 1], s.now);
      if t.ps[n - 1].state == RUNNABLE {
        PushInInv(t, 0, n - 1);
      }
    }
  }

  /** A process's books do not depend on cur_time. */
  lemma ResetAccount(ps: seq<Proc>, xs: set<nat>, x: nat, now: int)
    requires x < |ps| && Account(ps[x], now)
    ensures Account(Reset(ps, xs)[x], now) && Reset(ps, xs)[x].state == ps[x].state
    ensures Reset(ps, xs)[x].(cur_time := 0) == ps[x].(cur_time := 0)
  {
  }

  lemma SwitchAccount(pr: Proc, now: int)
    requires Account(pr, now) && pr.state == RUNNABLE
    ensures Account(pr.(state := RUNNING, wait_time := 0, num_run := pr.num_run + 1), now)
  {
  }

  lemma DispatchInv(s: Sys, q: nat, k: nat)
    requires Inv(s) && FirstRunnable(s.rings, s.ps, q, k)
    ensures Inv(Dispatched(s, q, k))
  {
    hide RingsOk, Queued, TakenAt, Skipped, Reset, Account, ProcShape;
    TakenOk(s.rings, q, k);
    var s', p := Dispatched(s, q, k), s.rings[q][k];
    forall x | 0 <= x < NPROC
      ensures Account(s'.ps[x], s'.now) && (s'.ps[x].state == RUNNING ==> !Queued(s'.rings, x))
    {
      ResetAccount(s.ps, Skipped(s.rings, q, k), x, s.now);
      if x == p {
        SwitchAccount(Reset(s.ps, Skipped(s.rings, q, k))[x], s.now);
      }
    }
    AccountShape(s');
  }

  lemma AccountShape(s: Sys)
    requires |s.ps| == NPROC && |s.rings| == QUEUES && forall x :: 0 <= x < NPROC ==> Account(s.ps[x], s.now)
    ensures SysShape(s)
  {
  }

  lemma ResetInv(s: Sys, xs: set<nat>)
    requires Inv(s)
    ensures Inv(s.(ps := Reset(s.ps, xs)))
  {
    hide RingsOk, Queued, Reset, Account, ProcShape;
    var s' := s.(ps := Reset(s.ps, xs));
    forall x | 0 <= x < NPROC
      ensures Account(s'.ps[x], s'.now) && s'.ps[x].state == s.ps[x].state
    {
      ResetAccount(s.ps, xs, x, s.now);
    }
    AccountShape(s');
  }

  lemma StepInv(s: Sys, step: Step, s': Sys)
    requires Inv(s) && Next(s, step, s')
    ensures Inv(s')
  {
    hide RingsOk, Queued, Reset, Dispatched, Passed, Sum5, Account, Woken, Allocated, Yielded, RequeuedTo;
    match step
    case Alloc(p, pid) =>
      AllocInv(s, p, pid);
    case Dispatch(q, k) =>
      DispatchInv(s, q, k);
    case NoneFound =>
      ResetInv(s, Passed(s.rings, QUEUES));
    case Preempt(p) =>
      YieldInv(s, p);
    case Tick =>
      TickToInv(s.(now := s.now + 1), NPROC);
    case Requeue =>
      RequeuedInv(s, NPROC);
    case Wakeup(chan) =>
      WakeupInv(s, chan);
    case _ =>
      OneSlotInv(s, step, s');
  }

  /** The steps that set the state of one process. */
  lemma OneSlotInv(s: Sys, step: Step, s': Sys)
    requires Inv(s) && Next(s, step, s')
    requires step.Ready? || step.Abort? || step.Sleep? || step.Kill? || step.Exit? || step.Reap?
    ensures Inv(s')
  {
    hide RingsOk, Queued;
    assert Account(s.ps[step.p], s.now);
  }

  lemma WakeupInv(s: Sys, chan: nat)
    requires Inv(s)
    ensures Inv(s.(ps := Woken(s.ps, chan)))
  {
    hide RingsOk, Queued;
    var r := s.(ps := Woken(s.ps, chan));
    forall x | 0 <= x < NPROC
      ensures Account(r.ps[x], s.now) && (r.ps[x].state == RUNNING ==> s.ps[x].state == RUNNING)
    {
      assert Account(s.ps[x], s.now);
    }
  }

  /** A preempted process always lands at the tail of the queue it is demoted to. */
  lemma YieldInv(s: Sys, p: nat)
    requires Inv(s) && p < NPROC && s.ps[p].state == RUNNING && s.ps[p].queueNo < QUEUES - 1
    ensures Inv(Yielded(s, p))
    ensures var q := s.ps[p].queueNo + 1; Yielded(s, p).rings == s.rings[q := s.rings[q] + [p]]
  {
    hide RingsOk;
    var pr := s.ps[p];
    var t := s.(ps := s.ps[p := pr.(state := RUNNABLE, cur_time := 0, queueNo := pr.queueNo + 1)]);
    assert Account(pr, s.now);
    assert Inv(t);
    NeverFull(s.rings, pr.queueNo + 1, p);
    PushInInv(t, pr.queueNo + 1, p);
  }

  lemma AllocInv(s: Sys, p: nat, pid: nat)
    requires Inv(s) && p < NPROC && pid > 0 && s.ps[p].state == UNUSED
    ensures Inv(Allocated(s, p, pid))
  {
    hide RingsOk, Queued;
    var t := s.(ps := s.ps[p := FreshProc(pid, s.now, s.ps[p])]);
    assert Inv(t);
    PushInInv(t, 0, p);
    PushInInv(t, 1, p);
    PushInInv(t, 2, p);
    PushInInv(t, 3, p);
    PushInInv(t, 4, p);
  }

  function Boot(): Sys {
    Sys([[], [], [], [], []],
        seq(NPROC, _ => Proc(UNUSED, 0, 0, 0, 0, 0, 0, 0, 0, [0, 0, 0, 0, 0], 0)), 0)
  }

  ghost predicate IsRun(ss: seq<Sys>, steps: seq<Step>) {
    && |ss| == |steps| + 1 && ss[0] == Boot()
    && forall i :: 0 <= i < |steps| ==> SysShape(ss[i]) && Next(ss[i], steps[i], ss[i + 1])
  }

  lemma {:induction false} RunInv(ss: seq<Sys>, steps: seq<Step>, i: nat)
    requires IsRun(ss, steps) && i < |ss|
    ensures Inv(ss[i])
  {
    if i == 0 {
      assert forall x :: 0 <= x < NPROC ==> Account(Boot().ps[x], 0);
    } else {
      RunInv(ss, steps, i - 1);
      hide Inv, Next;
      StepInv(ss[i - 1], steps[i - 1], ss[i]);
    }
  }

  /** Over every run: a process is in at most one place of one ring, and in none while it runs. */
  lemma NeverDuplicated(ss: seq<Sys>, steps: seq<Step>, i: nat)
    requires IsRun(ss, steps) && i < |ss|
    ensures |ss[i].rings| == QUEUES && |ss[i].ps| == NPROC
    ensures OnePlaceEach(ss[i].rings)
    ensures forall a, m :: 0 <= a < QUEUES && 0 <= m < |ss[i].rings[a]| ==>
              ss[i].rings[a][m] < NPROC && ss[i].ps[ss[i].rings[a][m]].state != RUNNING
  {
    RunInv(ss, steps, i);
    hide IsRun, Account;
    var rings := ss[i].rings;
    forall a, m | 0 <= a < QUEUES && 0 <= m < |rings[a]|
      ensures rings[a][m] < NPROC && ss[i].ps[rings[a][m]].state != RUNNING
    {
      assert Queued(rings, rings[a][m]);
    }
    forall a, m, b, n | InRing(rings, a, m) && InRing(rings, b, n) && rings[a][m] == rings[b][n]
      ensures a == b && m == n
    {
      assert rings[a][m] in rings[a] && rings[b][n] in rings[b];
      assert a == b;
    }
  }

  ghost predicate InRing(rings: seq<seq<nat>>, a: int, m: int) {
    0 <= a < |rings| && 0 <= m < |rings[a]|
  }

  ghost predicate OnePlaceEach(rings: seq<seq<nat>>) {
    forall a, m, b, n :: InRing(rings, a, m) && InRing(rings, b, n) && rings[a][m] == rings[b][n] ==> a == b && m == n
  }

  /** Over every run: after the loop that ends a pass, every RUNNABLE process is in some ring,
      including one that was just woken. */
  lemma PassEndsQueued(ss: seq<Sys>, steps: seq<Step>, i: nat, p: nat)
    requires IsRun(ss, steps) && i < |steps| && steps[i].Requeue? && p < NPROC
    ensures |ss[i + 1].ps| == NPROC && (ss[i + 1].ps[p].state == RUNNABLE ==> Queued(ss[i + 1].rings, p))
  {
    RunInv(ss, steps, i);
    RequeuedInv(ss[i], NPROC);
    hide Inv, Queued, RequeuedTo;
    assert ss[i + 1].ps[p].(cur_time := 0) == ss[i].ps[p].(cur_time := 0);
  }

  /** waitx's two results. */
  function Rtime(pr: Proc): int {
    pr.run_time
  }

  function Wtime(pr: Proc): int {
    (pr.end_time - pr.start_time) - pr.run_time
  }

  /** Nothing but a wakeup on its channel or a kill disturbs a sleeper. */
  lemma StaysAsleep(s: Sys, step: Step, s': Sys, p: nat)
    requires Inv(s) && Next(s, step, s') && p < NPROC && s.ps[p].state == SLEEPING
    requires step != Wakeup(s.ps[p].chan) && step != Kill(p)
    ensures p < |s'.ps| && s'.ps[p].state == SLEEPING && s'.ps[p].chan == s.ps[p].chan
  {
    hide RingsOk, Queued, Account, Allocated, Ticked, Dispatched, RequeuedTo, Yielded, Reset, Passed;
    match step
    case Alloc(x, pid) => AllocatedEffect(s, x, pid);
    case Dispatch(q, k) =>
      hide Skipped;
      DispatchedEffect(s, q, k);
    case NoneFound => ResetAsleep(s.ps, Passed(s.rings, QUEUES), p);
    case Preempt(x) =>
      ShapeAt(s, x);
      YieldAsleep(s, x, p);
    case Tick => TickEffect(s);
    case Requeue => RequeuedEffect(s, NPROC);
    case _ =>
  }

  lemma ResetAsleep(ps: seq<Proc>, xs: set<nat>, p: nat)
    requires p < |ps|
    ensures Reset(ps, xs)[p].state == ps[p].state && Reset(ps, xs)[p].chan == ps[p].chan
  {
  }

  lemma YieldAsleep(s: Sys, x: nat, p: nat)
    requires Inv(s) && x < NPROC && p < NPROC && x != p && s.ps[x].queueNo < QUEUES - 1
    ensures p < |Yielded(s, x).ps| && Yielded(s, x).ps[p] == s.ps[p]
  {
    hide RingsOk, Queued, Account, Pushed;
  }

  /** Over every run: who sleeps on a channel sleeps there until the next wakeup on it or kill, and is RUNNABLE after
      that. */
  lemma {:induction false} SleepsUntilWoken(ss: seq<Sys>, steps: seq<Step>, i: nat, j: nat, p: nat, chan: nat)
    requires IsRun(ss, steps) && i < j < |ss| && p < NPROC && steps[i] == Sleep(p, chan)
    requires forall k :: i < k < j ==> steps[k] != Wakeup(chan) && steps[k] != Kill(p)
    ensures p < |ss[j].ps| && ss[j].ps[p].state == SLEEPING && ss[j].ps[p].chan == chan
    ensures j < |steps| && (steps[j] == Wakeup(chan) || steps[j] == Kill(p)) ==>
              p < |ss[j + 1].ps| && ss[j + 1].ps[p].state == RUNNABLE
    decreases j
  {
    hide Inv, Next, SysShape, Boot;
    RunInv(ss, steps, j - 1);
    RunInv(ss, steps, j);
    if j > i + 1 {
      SleepsUntilWoken(ss, steps, i, j - 1, p, chan);
      StaysAsleep(ss[j - 1], steps[j - 1], ss[j], p);
    } else {
      FallsAsleep(ss[i], ss[j], p, chan);
    }
    if j < |steps| && (steps[j] == Wakeup(chan) || steps[j] == Kill(p)) {
      WakesUp(ss[j], steps[j], ss[j + 1], p);
    }
  }

  lemma FallsAsleep(s: Sys, s': Sys, p: nat, chan: nat)
    requires SysShape(s) && Next(s, Sleep(p, chan), s')
    ensures p < |s'.ps| && s'.ps[p].state == SLEEPING && s'.ps[p].chan == chan
  {
  }

  lemma WakesUp(s: Sys, step: Step, s': Sys, p: nat)
    requires SysShape(s) && Next(s, step, s') && p < |s.ps| && s.ps[p].state == SLEEPING
    requires step == Wakeup(s.ps[p].chan) || step == Kill(p)
    ensures p < |s'.ps| && s'.ps[p].state == RUNNABLE
  {
  }

  /** The last step before i that created a process in slot p, or -1. */
  function LastAlloc(steps: seq<Step>, p: nat, i: nat): (a: int)
    requires i <= |steps|
    ensures -1 <= a < i && (a >= 0 ==> steps[a].Alloc? && steps[a].p == p)
    ensures forall j :: a < j < i ==> !(steps[j].Alloc? && steps[j].p == p)
  {
    if i == 0 then -1 else if steps[i - 1].Alloc? && steps[i - 1].p == p then i - 1 else LastAlloc(steps, p, i - 1)
  }

  /** The last step before i in which the process in slot p exited, or -1. */
  function LastExit(steps: seq<Step>, p: nat, i: nat): (e: int)
    requires i <= |steps|
    ensures -1 <= e < i && (e >= 0 ==> steps[e] == Exit(p)) && forall j :: e < j < i ==> steps[j] != Exit(p)
  {
    if i == 0 then -1 else if steps[i - 1] == Exit(p) then i - 1 else LastExit(steps, p, i - 1)
  }

  /** What a process may be doing when the timer ticks. */
  datatype Doing = Running | RunningIn(q: nat) | NotRunning

  predicate Does(pr: Proc, d: Doing) {
    match d
    case Running => pr.state == RUNNING
    case RunningIn(q) => pr.state == RUNNING && pr.queueNo == q
    case NotRunning => pr.state != RUNNING
  }

  /** How many of the ticks from step a up to step b found the process in slot p doing d. */
  function TicksWhile(ss: seq<Sys>, steps: seq<Step>, p: nat, a: nat, b: nat, d: Doing): nat
    requires b <= |steps| < |ss| && forall i :: 0 <= i < |ss| ==> p < |ss[i].ps|
  {
    if b <= a then 0
    else TicksWhile(ss, steps, p, a, b - 1, d) + if steps[b - 1].Tick? && Does(ss[b - 1].ps[p], d) then 1 else 0
  }

  /** What one step does to the times of the process in slot p. */
  ghost predicate TimesStep(s: Sys, step: Step, s': Sys, p: nat)
    requires p < |s.ps| && p < |s'.ps|
  {
    var pr, qr := s.ps[p], s'.ps[p];
    if step.Alloc? && step.p == p then
      && pr.state == UNUSED && qr.state == EMBRYO && qr.start_time == s.now == s'.now
      && qr.run_time == 0 && qr.ticks == [0, 0, 0, 0, 0]
    else
      && qr.start_time == pr.start_time
      && (if step == Exit(p) then pr.state == RUNNING && qr.state == ZOMBIE && qr.end_time == s.now
          else
            && qr.end_time == pr.end_time && (pr.state == UNUSED ==> qr.state == UNUSED)
            && (qr.state == ZOMBIE ==> pr.state == ZOMBIE))
      && (pr.state == ZOMBIE ==> qr.state == ZOMBIE || qr.state == UNUSED)
      && (if step.Tick? then
            && s'.now == s.now + 1 && qr.state == pr.state
            && (if pr.state == RUNNING && ProcShape(pr) then
                  && qr.run_time == pr.run_time + 1
                  && qr.ticks == pr.ticks[pr.queueNo := pr.ticks[pr.queueNo] + 1]
                else qr.run_time == pr.run_time && qr.ticks == pr.ticks)
          else s'.now == s.now && qr.run_time == pr.run_time && qr.ticks == pr.ticks)
  }

  lemma AllocTimes(s: Sys, x: nat, pid: nat, p: nat)
    requires Inv(s) && x < NPROC && p < NPROC && s.ps[x].state == UNUSED
    ensures p < |Allocated(s, x, pid).ps| && TimesStep(s, Alloc(x, pid), Allocated(s, x, pid), p)
  {
    AllocatedEffect(s, x, pid);
    hide Inv, SysShape, Queued;
  }

  lemma TickTimes(s: Sys, p: nat)
    requires Inv(s) && p < NPROC
    ensures p < |Ticked(s).ps| && TimesStep(s, Tick, Ticked(s), p)
  {
    hide Queued, Ticked, RingsOk, Account;
    TickEffect(s);
  }

  /** A process whose state changes between neither UNUSED nor ZOMBIE, and whose times do not change. */
  predicate SameTimes(pr: Proc, qr: Proc) {
    && qr.start_time == pr.start_time && qr.end_time == pr.end_time && qr.run_time == pr.run_time
    && qr.ticks == pr.ticks && (qr.state == UNUSED <==> pr.state == UNUSED)
    && (qr.state == ZOMBIE <==> pr.state == ZOMBIE)
  }

  lemma DispatchTimes(s: Sys, q: nat, k: nat, p: nat)
    requires Inv(s) && FirstRunnable(s.rings, s.ps, q, k) && p < NPROC
    ensures p < |Dispatched(s, q, k).ps| && SameTimes(s.ps[p], Dispatched(s, q, k).ps[p])
  {
    DispatchedEffect(s, q, k);
    hide Inv, Skipped, Queued, NoneRunnable;
  }

  lemma ResetTimes(ps: seq<Proc>, xs: set<nat>, p: nat)
    requires p < |ps|
    ensures SameTimes(ps[p], Reset(ps, xs)[p])
  {
  }

  lemma PreemptTimes(s: Sys, x: nat, p: nat)
    requires Inv(s) && x < NPROC && p < NPROC && s.ps[x].state == RUNNING && s.ps[x].queueNo < QUEUES - 1
    ensures p < |Yielded(s, x).ps| && SameTimes(s.ps[p], Yielded(s, x).ps[p])
  {
    hide RingsOk, Queued, Account, Pushed;
  }

  lemma RequeueTimes(s: Sys, p: nat)
    requires Inv(s) && p < NPROC
    ensures p < |RequeuedTo(s, NPROC).ps| && SameTimes(s.ps[p], RequeuedTo(s, NPROC).ps[p])
  {
    RequeuedEffect(s, NPROC);
    hide Inv, Queued, Waiting, RequeuedTo, Ascending;
  }

  lemma QueueTimes(s: Sys, step: Step, s': Sys, p: nat)
    requires Inv(s) && Next(s, step, s') && p < NPROC
    requires step.Dispatch? || step.NoneFound? || step.Preempt? || step.Requeue?
    ensures p < |s'.ps| && TimesStep(s, step, s', p)
  {
    hide RingsOk, Queued, Account, Dispatched, RequeuedTo, Yielded, Reset, FirstRunnable, Passed, NoneRunnable;
    StillNow(s, step, s');
    match step
    case Dispatch(q, k) => DispatchTimes(s, q, k, p);
    case NoneFound => ResetTimes(s.ps, Passed(s.rings, QUEUES), p);
    case Preempt(x) =>
      ShapeAt(s, x);
      PreemptTimes(s, x, p);
    case Requeue => RequeueTimes(s, p);
  }

  lemma StillNow(s: Sys, step: Step, s': Sys)
    requires SysShape(s) && Next(s, step, s') && (step.Dispatch? || step.NoneFound? || step.Preempt? || step.Requeue?)
    ensures s'.now == s.now
  {
  }

  lemma StepTimes(s: Sys, step: Step, s': Sys, p: nat)
    requires Inv(s) && Next(s, step, s') && p < NPROC
    ensures p < |s.ps| && p < |s'.ps| && TimesStep(s, step, s', p)
  {
    hide RingsOk, Queued, Account, Allocated, Ticked, Dispatched, RequeuedTo, Yielded, Reset;
    if step.Alloc? {
      AllocTimes(s, step.p, step.pid, p);
    } else if step.Tick? {
      TickTimes(s, p);
    } else if step.Dispatch? || step.NoneFound? || step.Preempt? || step.Requeue? {
      QueueTimes(s, step, s', p);
    }
  }

  lemma ShapeAt(s: Sys, p: nat)
    requires SysShape(s) && p < NPROC
    ensures ProcShape(s.ps[p])
  {
  }

  /** The books of the process in slot p at moment i, by the steps of the run. */
  ghost predicate Times(ss: seq<Sys>, steps: seq<Step>, i: nat, p: nat)
    requires i <= |steps| < |ss| && forall j :: 0 <= j < |ss| ==> p < |ss[j].ps|
  {
    var pr, a, e := ss[i].ps[p], LastAlloc(steps, p, i), LastExit(steps, p, i);
    pr.state != UNUSED ==>
      && a >= 0 && pr.start_time == ss[a].now
      && (if pr.state == ZOMBIE then a < e && pr.end_time == ss[e].now && Counted(ss, steps, pr, p, a, e)
          else Counted(ss, steps, pr, p, a, i))
  }

  /** The ticks between a and b are those the process ran, queue by queue, and the others. */
  ghost predicate Counted(ss: seq<Sys>, steps: seq<Step>, pr: Proc, p: nat, a: nat, b: nat)
    requires a <= b <= |steps| < |ss| && forall j :: 0 <= j < |ss| ==> p < |ss[j].ps|
  {
    && pr.run_time == TicksWhile(ss, steps, p, a, b, Running)
    && ss[b].now - ss[a].now == pr.run_time + TicksWhile(ss, steps, p, a, b, NotRunning)
    && |pr.ticks| == QUEUES
    && forall q: nat :: q < QUEUES ==> pr.ticks[q] == TicksWhile(ss, steps, p, a, b, RunningIn(q))
  }

  lemma SlotsThere(ss: seq<Sys>, steps: seq<Step>, p: nat)
    requires IsRun(ss, steps) && p < NPROC
    ensures |steps| < |ss| && forall j :: 0 <= j < |ss| ==> p < |ss[j].ps|
  {
    forall j | 0 <= j < |ss|
      ensures p < |ss[j].ps|
    {
      RunInv(ss, steps, j);
    }
  }

  lemma CountedStart(ss: seq<Sys>, steps: seq<Step>, p: nat, a: nat)
    requires a < |steps| < |ss| && forall j :: 0 <= j < |ss| ==> p < |ss[j].ps|
    requires !steps[a].Tick? && ss[a + 1].now == ss[a].now
    requires ss[a + 1].ps[p].run_time == 0 && ss[a + 1].ps[p].ticks == [0, 0, 0, 0, 0]
    ensures Counted(ss, steps, ss[a + 1].ps[p], p, a, a + 1)
  {
    var b := a + 1;
    forall d: Doing
      ensures TicksWhile(ss, steps, p, a, b, d) == 0
    {
      assert TicksWhile(ss, steps, p, a, a, d) == 0;
    }
  }

  lemma CountedStep(ss: seq<Sys>, steps: seq<Step>, p: nat, a: nat, b: nat)
    requires a <= b < |steps| < |ss| && forall j :: 0 <= j < |ss| ==> p < |ss[j].ps|
    requires Counted(ss, steps, ss[b].ps[p], p, a, b) && TimesStep(ss[b], steps[b], ss[b + 1], p)
    requires ProcShape(ss[b].ps[p]) && !(steps[b].Alloc? && steps[b].p == p) && steps[b] != Exit(p)
    ensures Counted(ss, steps, ss[b + 1].ps[p], p, a, b + 1)
  {
  }

  lemma {:induction false} RunTimes(ss: seq<Sys>, steps: seq<Step>, i: nat, p: nat)
    requires IsRun(ss, steps) && i < |ss| && p < NPROC
    ensures |steps| < |ss| && (forall j :: 0 <= j < |ss| ==> p < |ss[j].ps|) && Times(ss, steps, i, p)
  {
    SlotsThere(ss, steps, p);
    if i > 0 {
      RunTimes(ss, steps, i - 1, p);
      RunInv(ss, steps, i - 1);
      StepTimes(ss[i - 1], steps[i - 1], ss[i], p);
      ShapeAt(ss[i - 1], p);
      hide IsRun, Inv, Next;
      TimesNext(ss, steps, i - 1, p);
    }
  }

  lemma TimesNext(ss: seq<Sys>, steps: seq<Step>, i: nat, p: nat)
    requires i < |steps| < |ss| && forall j :: 0 <= j < |ss| ==> p < |ss[j].ps|
    requires Times(ss, steps, i, p) && TimesStep(ss[i], steps[i], ss[i + 1], p) && ProcShape(ss[i].ps[p])
    ensures Times(ss, steps, i + 1, p)
  {
    hide Counted, TicksWhile;
    var pr, a := ss[i].ps[p], LastAlloc(steps, p, i);
    if steps[i].Alloc? && steps[i].p == p {
      CountedStart(ss, steps, p, i);
    } else if pr.state != UNUSED && pr.state != ZOMBIE && steps[i] != Exit(p) {
      CountedStep(ss, steps, p, a, i);
    } else if pr.state != UNUSED {
      SameCounts(ss, steps, pr, ss[i + 1].ps[p], p, a, if pr.state == ZOMBIE then LastExit(steps, p, i) else i);
    }
  }

  lemma SameCounts(ss: seq<Sys>, steps: seq<Step>, pr: Proc, qr: Proc, p: nat, a: nat, b: nat)
    requires a <= b <= |steps| < |ss| && forall j :: 0 <= j < |ss| ==> p < |ss[j].ps|
    ensures Counted(ss, steps, pr, p, a, b) && qr.run_time == pr.run_time && qr.ticks == pr.ticks
            ==> Counted(ss, steps, qr, p, a, b)
  {
  }

  /** Over every run: what waitx reports for an exited child are the ticks, between its creation and its exit, in
      which it was running and the ones in which it was not; its per-queue counts are the ticks it ran in each queue. */
  lemma WaitxTimes(ss: seq<Sys>, steps: seq<Step>, i: nat, p: nat)
    requires IsRun(ss, steps) && i < |ss| && p < NPROC && p < |ss[i].ps| && ss[i].ps[p].state == ZOMBIE
    ensures |steps| < |ss| && forall j :: 0 <= j < |ss| ==> p < |ss[j].ps|
    ensures var pr, a, e := ss[i].ps[p], LastAlloc(steps, p, i), LastExit(steps, p, i);
            && 0 <= a < e && pr.start_time == ss[a].now && pr.end_time == ss[e].now
            && Rtime(pr) == TicksWhile(ss, steps, p, a, e, Running)
            && Wtime(pr) == TicksWhile(ss, steps, p, a, e, NotRunning)
            && Rtime(pr) + Wtime(pr) == pr.end_time - pr.start_time
            && |pr.ticks| == QUEUES && Sum5(pr.ticks) == Rtime(pr)
            && forall q: nat :: q < QUEUES ==> pr.ticks[q] == TicksWhile(ss, steps, p, a, e, RunningIn(q))
  {
    RunTimes(ss, steps, i, p);
    RunInv(ss, steps, i);
    assert Account(ss[i].ps[p], ss[i].now);
  }

  // ---- slices ----

  /** A queued process has used nothing of its slice. */
  ghost predicate SliceInv(s: Sys) {
    |s.ps| == NPROC && forall x: nat :: x < NPROC && Queued(s.rings, x) ==> s.ps[x].cur_time == 0
  }

  ghost predicate Dispatches(s: Sys, step: Step, p: nat) {
    step.Dispatch? && step.q < |s.rings| && step.k < |s.rings[step.q]| && s.rings[step.q][step.k] == p
  }

  /** What one step does to the slice of the process in slot p. */
  ghost predicate SliceStep(s: Sys, step: Step, s': Sys, p: nat)
    requires p < |s.ps| && p < |s'.ps|
  {
    var pr, qr := s.ps[p], s'.ps[p];
    && (Queued(s'.rings, p) ==> qr.cur_time == 0)
    && (qr.state == RUNNING ==>
          if Dispatches(s, step, p) then qr.cur_time == pr.cur_time && Queued(s.rings, p)
          else pr.state == RUNNING && qr.cur_time == pr.cur_time + if step.Tick? then 1 else 0)
  }

  lemma TickSlice(s: Sys, p: nat)
    requires Inv(s) && SliceInv(s) && p < NPROC
    ensures p < |Ticked(s).ps| && SliceStep(s, Tick, Ticked(s), p)
  {
    TickEffect(s);
    TickToRings(s.(now := s.now + 1), NPROC);
    hide TickTo, RingsOk, Queued, Account;
  }

  lemma AllocSlice(s: Sys, x: nat, pid: nat, p: nat)
    requires Inv(s) && SliceInv(s) && x < NPROC && p < NPROC && s.ps[x].state == UNUSED
    ensures p < |Allocated(s, x, pid).ps| && SliceStep(s, Alloc(x, pid), Allocated(s, x, pid), p)
  {
    AllocatedEffect(s, x, pid);
    if !Queued(s.rings, x) {
      AppendQueued(s.rings, 0, x);
    }
    hide Inv, SysShape, Queued;
  }

  /** Appending x to a ring queues x and nobody else. */
  lemma AppendQueued(rings: seq<seq<nat>>, q: nat, x: nat)
    requires q < |rings|
    ensures forall y: nat :: Queued(rings[q := rings[q] + [x]], y) <==> Queued(rings, y) || y == x
  {
    var r := rings[q := rings[q] + [x]];
    forall y: nat
      ensures Queued(r, y) <==> Queued(rings, y) || y == x
    {
      assert forall i :: 0 <= i < |rings| ==> (y in r[i] <==> y in rings[i] || (i == q && y == x));
      assert y == x ==> y in r[q];
    }
  }

  lemma DispatchSlice(s: Sys, q: nat, k: nat, p: nat)
    requires Inv(s) && SliceInv(s) && FirstRunnable(s.rings, s.ps, q, k) && p < NPROC
    ensures p < |Dispatched(s, q, k).ps| && SliceStep(s, Dispatch(q, k), Dispatched(s, q, k), p)
  {
    hide Queued, RingsOk, NoneRunnable, Skipped, Account, TakenAt, Dispatched, ProcShape;
    DispatchedEffect(s, q, k);
    DispatchedRings(s, q, k);
    StillQueued(s.rings, q, k, p);
    EntryQueued(s.rings, q, k);
    var r := Dispatched(s, q, k);
    assert p == s.rings[q][k] ==> r.ps[p].cur_time == s.ps[p].cur_time;
    assert p != s.rings[q][k] ==> r.ps[p].state == s.ps[p].state;
    assert p != s.rings[q][k] && s.ps[p].state == RUNNING ==> r.ps[p].cur_time == s.ps[p].cur_time by {
      SkippedQueued(s.rings, q, k, p);
    }
  }

  lemma SkippedQueued(rings: seq<seq<nat>>, q: nat, k: nat, x: nat)
    requires q < |rings| && k <= |rings[q]|
    ensures x in Skipped(rings, q, k) ==> Queued(rings, x)
  {
    PassedQueued(rings, q, x);
    if x in Counting.Elems(rings[q][..k]) {
      assert x in rings[q];
    }
  }

  lemma StillQueued(rings: seq<seq<nat>>, q: nat, k: nat, x: nat)
    requires RingsOk(rings) && q < QUEUES && k < |rings[q]|
    ensures Queued(rings[q := TakenAt(rings[q], k)], x) ==> Queued(rings, x)
  {
    hide Queued;
    TakenOk(rings, q, k);
  }

  lemma EntryQueued(rings: seq<seq<nat>>, q: nat, k: nat)
    requires q < |rings| && k < |rings[q]|
    ensures Queued(rings, rings[q][k])
  {
    assert rings[q][k] in rings[q];
  }

  lemma DispatchedRings(s: Sys, q: nat, k: nat)
    requires q < |s.rings| && k < |s.rings[q]| && s.rings[q][k] < NPROC && |s.ps| == NPROC
    ensures Dispatched(s, q, k).rings == s.rings[q := TakenAt(s.rings[q], k)]
  {
  }

  lemma {:induction false} PassedQueued(rings: seq<seq<nat>>, q: nat, x: nat)
    requires q <= |rings|
    ensures x in Passed(rings, q) ==> Queued(rings, x)
  {
    if q > 0 {
      PassedQueued(rings, q - 1, x);
      assert x in Counting.Elems(rings[q - 1]) ==> x in rings[q - 1];
    }
  }

  lemma NoneFoundSlice(s: Sys, p: nat)
    requires Inv(s) && SliceInv(s) && p < NPROC
    ensures SliceStep(s, NoneFound, s.(ps := Reset(s.ps, Passed(s.rings, QUEUES))), p)
  {
    PassedQueued(s.rings, QUEUES, p);
    hide Queued, RingsOk, Account, Passed;
  }

  lemma OneSlotSlice(s: Sys, step: Step, s': Sys, p: nat)
    requires Inv(s) && SliceInv(s) && Next(s, step, s') && p < NPROC
    requires step.Ready? || step.Abort? || step.Sleep? || step.Kill? || step.Exit? || step.Reap? || step.Wakeup?
    ensures p < |s'.ps| && SliceStep(s, step, s', p)
  {
    hide RingsOk, Queued, Account;
  }

  lemma RequeueSlice(s: Sys, p: nat)
    requires Inv(s) && SliceInv(s) && p < NPROC
    ensures p < |RequeuedTo(s, NPROC).ps| && SliceStep(s, Requeue, RequeuedTo(s, NPROC), p)
  {
    RequeuedEffect(s, NPROC);
    hide RequeuedTo, Queued, RingsOk, Account, Ascending;
  }

  lemma PreemptSlice(s: Sys, x: nat, p: nat)
    requires Inv(s) && SliceInv(s) && x < NPROC && p < NPROC && s.ps[x].state == RUNNING && s.ps[x].queueNo < QUEUES - 1
    ensures p < |Yielded(s, x).ps| && SliceStep(s, Preempt(x), Yielded(s, x), p)
  {
    var pr := s.ps[x];
    ShapeAt(s, x);
    PushInEffect(s.(ps := s.ps[x := pr.(state := RUNNABLE, cur_time := 0, queueNo := pr.queueNo + 1)]),
                 pr.queueNo + 1, x);
    hide PushIn, Queued, RingsOk, Account;
  }

  lemma StepSlice(s: Sys, step: Step, s': Sys, p: nat)
    requires Inv(s) && SliceInv(s) && Next(s, step, s') && p < NPROC
    ensures p < |s'.ps| && SliceStep(s, step, s', p)
  {
    hide RingsOk, Queued, Account, Allocated, Ticked, Dispatched, RequeuedTo, Yielded, FirstRunnable, Passed, Reset,
         SliceStep, SliceInv, Woken;
    match step
    case Alloc(x, pid) => AllocSlice(s, x, pid, p);
    case Tick => TickSlice(s, p);
    case Dispatch(q, k) => DispatchSlice(s, q, k, p);
    case Requeue => RequeueSlice(s, p);
    case Preempt(x) =>
      ShapeAt(s, x);
      PreemptSlice(s, x, p);
    case NoneFound => NoneFoundSlice(s, p);
    case _ => OneSlotSlice(s, step, s', p);
  }

  /** The last step before i that dispatched the process in slot p, or -1. */
  ghost function LastDispatch(ss: seq<Sys>, steps: seq<Step>, p: nat, i: nat): (a: int)
    requires i <= |steps| < |ss|
    ensures -1 <= a < i && (a >= 0 ==> Dispatches(ss[a], steps[a], p))
    ensures forall j :: a < j < i ==> !Dispatches(ss[j], steps[j], p)
  {
    if i == 0 then -1 else if Dispatches(ss[i - 1], steps[i - 1], p) then i - 1 else LastDispatch(ss, steps, p, i - 1)
  }

  lemma {:induction false} RunSlices(ss: seq<Sys>, steps: seq<Step>, i: nat)
    requires IsRun(ss, steps) && i < |ss|
    ensures SliceInv(ss[i])
  {
    if i > 0 {
      RunSlices(ss, steps, i - 1);
      RunInv(ss, steps, i - 1);
      RunInv(ss, steps, i);
      forall x: nat | x < NPROC && Queued(ss[i].rings, x)
        ensures ss[i].ps[x].cur_time == 0
      {
        StepSlice(ss[i - 1], steps[i - 1], ss[i], x);
      }
    }
  }

  /** Over every run: cur_time of a running process counts the ticks it has run since it was last dispatched. */
  lemma {:induction false} SliceCounts(ss: seq<Sys>, steps: seq<Step>, i: nat, p: nat)
    requires IsRun(ss, steps) && i < |ss| && p < NPROC && p < |ss[i].ps| && ss[i].ps[p].state == RUNNING
    ensures |steps| < |ss| && forall j :: 0 <= j < |ss| ==> p < |ss[j].ps|
    ensures var a := LastDispatch(ss, steps, p, i);
            a >= 0 && ss[i].ps[p].cur_time == TicksWhile(ss, steps, p, a, i, Running)
  {
    hide Inv, Next, Queued, SliceInv, Boot, SysShape;
    SlotsThere(ss, steps, p);
    if i == 0 {
      BootIdle(p);
    } else {
      RunInv(ss, steps, i - 1);
      RunSlices(ss, steps, i - 1);
      StepSlice(ss[i - 1], steps[i - 1], ss[i], p);
      if Dispatches(ss[i - 1], steps[i - 1], p) {
        SliceStarts(ss[i - 1], p);
        assert TicksWhile(ss, steps, p, i - 1, i - 1, Running) == 0;
      } else {
        SliceCounts(ss, steps, i - 1, p);
      }
    }
  }

  lemma BootIdle(p: nat)
    requires p < NPROC
    ensures p < |Boot().ps| && Boot().ps[p].state != RUNNING
  {
  }

  lemma SliceStarts(s: Sys, p: nat)
    requires SliceInv(s) && p < NPROC
    ensures p < |s.ps| && (Queued(s.rings, p) ==> s.ps[p].cur_time == 0)
  {
  }

  /** Over every run: a process is preempted in queue q only after it has run more than 2^q ticks at a stretch. */
  lemma PreemptedAfterSlice(ss: seq<Sys>, steps: seq<Step>, i: nat, p: nat)
    requires IsRun(ss, steps) && i < |steps| && steps[i] == Preempt(p) && p < NPROC
    ensures |steps| < |ss| && (forall j :: 0 <= j < |ss| ==> p < |ss[j].ps|) && 0 <= ss[i].ps[p].queueNo < 4
    ensures var a := LastDispatch(ss, steps, p, i);
            a >= 0 && TicksWhile(ss, steps, p, a, i, Running) > Slice(ss[i].ps[p].queueNo)
  {
    SlotsThere(ss, steps, p);
    assert SysShape(ss[i]) && Next(ss[i], steps[i], ss[i + 1]);
    ShapeAt(ss[i], p);
    SliceCounts(ss, steps, i, p);
  }

  class Scheduler {
    const front: array<int>
    const rear: array<int>
    const sz: array<int>
    const queue: array2<nat>
    const proc: array<Proc>
    var ticks: nat

    ghost predicate Shape()
      reads front, rear, sz, queue, proc
    {
      && front.Length == QUEUES && rear.Length == QUEUES && sz.Length == QUEUES
      && front != rear && front != sz && rear != sz
      && queue.Length0 == QUEUES && queue.Length1 == NPROC && proc.Length == NPROC
      && forall i :: 0 <= i < QUEUES ==> RingOk(front[i], rear[i], sz[i])
    }

    ghost function Row(i: nat): seq<nat>
      requires i < queue.Length0
      reads queue
    {
      seq(queue.Length1, j requires 0 <= j < queue.Length1 reads queue => queue[i, j])
    }

    ghost function Ring(i: nat): (s: seq<nat>)
      requires Shape() && i < QUEUES
      reads front, rear, sz, queue, proc
      ensures |s| == sz[i]
    {
      RingLength(front[i], rear[i], sz[i], Row(i));
      RingSeq(front[i], rear[i], Row(i))
    }

    ghost function Rings(): (r: seq<seq<nat>>)
      requires Shape()
      reads front, rear, sz, queue, proc
      ensures |r| == QUEUES
    {
      [Ring(0), Ring(1), Ring(2), Ring(3), Ring(4)]
    }

    ghost predicate Valid()
      reads front, rear, sz, queue, proc
    {
      Shape() && RingsOk(Rings())
    }

    ghost function System(): (s: Sys)
      requires Shape()
      reads this, front, rear, sz, queue, proc
    {
      Sys(Rings(), proc[..], ticks)
    }

    constructor ()
      ensures Valid() && Rings() == [[], [], [], [], []]
      ensures fresh(front) && fresh(rear) && fresh(sz) && fresh(queue) && fresh(proc)
    {
      front := new int[QUEUES](_ => -1);
      rear := new int[QUEUES](_ => -1);
      sz := new int[QUEUES](_ => 0);
      queue := new nat[QUEUES, NPROC]((_, _) => 0);
      ticks := 0;
      proc := new Proc[NPROC](_ => Proc(UNUSED, 0, 0, 0, 0, 0, 0, 0, 0, [0, 0, 0, 0, 0], 0));
      new;
      hide RingsOk;
      assert forall i :: 0 <= i < QUEUES ==> Ring(i) == [];
      EmptyRings();
    }

    method IsEmpty(i: nat) returns (b: bool)
      requires Valid() && i < QUEUES
      ensures b <==> Rings()[i] == []
    {
      b := front[i] == -1;
    }

    method IsFull(i: nat) returns (b: bool)
      requires Valid() && i < QUEUES
      ensures b <==> |Rings()[i]| == NPROC
    {
      RingLength(front[i], rear[i], sz[i], Row(i));
      b := front[i] == rear[i] + 1 || (front[i] == 0 && rear[i] == NPROC - 1);
    }

    /** The search at the start of push. */
    method Find(cur: nat) returns (found: bool)
      requires Valid()
      ensures found <==> Queued(Rings(), cur)
    {
      for i := 0 to QUEUES
        invariant forall k :: 0 <= k < i ==> cur !in Rings()[k]
      {
        var here := FindIn(i, cur);
        if here {
          return true;
        }
      }
      return false;
    }

    method FindIn(i: nat, cur: nat) returns (found: bool)
      requires Valid() && i < QUEUES
      ensures found <==> cur in Rings()[i]
    {
      ghost var row := Row(i);
      assert Rings()[i] == RingSeq(front[i], rear[i], row);
      if front[i] > rear[i] {
        for j := 0 to NPROC
          invariant forall k :: 0 <= k < j && (k >= front[i] || k <= rear[i]) ==> row[k] != cur
        {
          if j >= front[i] || j <= rear[i] {
            if queue[i, j] == cur {
              assert row[j] == cur;
              return true;
            }
          }
        }
      } else {
        var j := front[i];
        while j <= rear[i] && j >= 0
          invariant front[i] <= j
          invariant forall k :: 0 <= k && front[i] <= k < j && k <= rear[i] ==> row[k] != cur
          decreases rear[i] - j
        {
          if queue[i, j] == cur {
            assert row[j] == cur;
            return true;
          }
          j := j + 1;
        }
      }
      return false;
    }

    /** push: append to ring q unless the process is in some ring already. */
    method Push(q: nat, cur: nat)
      requires Valid() && q < QUEUES && cur < NPROC
      modifies front, rear, sz, queue, proc
      ensures Valid() && System() == PushIn(old(System()), q, cur)
    {
      hide RingsOk, RingOk, RingSeq, Queued;
      var found := Find(cur);
      if found {
        return;
      }
      var full := IsFull(q);
      NeverFull(Rings(), q, cur);
      PushedOk(Rings(), q, cur);
      if full {
        return;
      }
      proc[cur] := proc[cur].(cur_time := 0);
      assert Rings() == old(Rings());
      Append(q, cur);
      assert Rings() == Pushed(old(Rings()), q, cur);
      assert proc[..] == old(proc[..])[cur := old(proc[cur]).(cur_time := 0)];
    }

    /** The ring-buffer store at the end of push. */
    method Append(q: nat, cur: nat)
      requires Shape() && q < QUEUES && |Rings()[q]| < NPROC
      modifies front, rear, sz, queue
      ensures Shape() && Rings() == old(Rings())[q := old(Rings())[q] + [cur]]
    {
      hide RingOk, RingSeq;
      RingLength(front[q], rear[q], sz[q], Row(q));
      RingPush(front[q], rear[q], sz[q], Row(q), cur);
      ghost var rings, row, r := Rings(), Row(q), (rear[q] + 1) % NPROC;
      if front[q] == -1 {
        front[q] := 0;
      }
      rear[q] := rear[q] + 1;
      rear[q] := rear[q] % NPROC;
      queue[q, rear[q]] := cur;
      sz[q] := sz[q] + 1;
      assert Row(q) == row[r := cur];
      assert forall i :: 0 <= i < QUEUES && i != q ==> Row(i) == old(Row(i));
      assert Rings() == rings[q := Ring(q)];
    }

    /** pop, on a ring that is not empty. */
    method Pop(q: nat) returns (cur: nat)
      requires Valid() && q < QUEUES && Rings()[q] != []
      modifies front, rear, sz
      ensures Shape() && old(Rings())[q][0] == cur && Rings() == old(Rings())[q := old(Rings())[q][1..]]
    {
      hide RingsOk, RingOk, RingSeq;
      RingLength(front[q], rear[q], sz[q], Row(q));
      if front[q] == -1 {
        EmptyRing(rear[q], sz[q], Row(q));
      }
      RingInRange(front[q], rear[q], sz[q]);
      RingPop(front[q], rear[q], sz[q], Row(q));
      ghost var rings, row := Rings(), Row(q);
      cur := queue[q, front[q]];
      if front[q] == rear[q] {
        front[q] := -1;
        rear[q] := -1;
      } else {
        front[q] := front[q] + 1;
        front[q] := front[q] % NPROC;
      }
      sz[q] := sz[q] - 1;
      assert forall i :: 0 <= i < QUEUES ==> Row(i) == old(Row(i));
      assert Rings() == rings[q := Ring(q)];
    }

    /** The inner loop of the search, on ring q; k is the place of the entry found. */
    method SearchRing(q: nat) returns (r: Option<nat>, ghost k: nat)
      requires Valid() && q < QUEUES
      modifies front, rear, sz, queue, proc
      ensures Valid() && k <= |old(Rings())[q]|
      ensures proc[..] == Reset(old(proc[..]), Counting.Elems(old(Rings())[q][..k]))
      ensures NoneRunnable(old(Rings())[q][..k], old(proc[..]))
      ensures r.None? ==> k == |old(Rings())[q]| && Rings() == old(Rings())
      ensures r.Some? ==> && k < |old(Rings())[q]| && r.value == old(Rings())[q][k] < NPROC
                          && old(proc[..])[r.value].state == RUNNABLE
                          && Rings() == old(Rings())[q := TakenAt(old(Rings())[q], k)]
    {
      hide RingsOk, RingOk, RingSeq, Queued, Counting.Elems, Reset;
      ghost var rings, ps := Rings(), proc[..];
      ghost var ring := rings[q];
      var cursz := 0;
      k := 0;
      NothingSkipped(ps, ring);
      assert Rotated(ring, 0) == ring && rings[q := ring] == rings;
      while sz[q] > cursz
        invariant k == cursz <= |ring| && Valid() && Rings() == rings[q := Rotated(ring, cursz)]
        invariant proc[..] == Reset(ps, Counting.Elems(ring[..cursz])) && NoneRunnable(ring[..cursz], ps)
        decreases |ring| - cursz
      {
        assert |Rings()[q]| == |ring|;
        RotateStep(rings, q, cursz);
        RingEntry(rings, q, cursz);
        var p := Pop(q);
        assert Rings() == rings[q := TakenAt(ring, cursz)];
        SkipOne(ps, ring, cursz);
        cursz := cursz + 1;
        if proc[p].state != RUNNABLE {
          Push(q, p);
          k := k + 1;
        } else {
          return Some(p), k;
        }
      }
      assert |Rings()[q]| == |ring|;
      assert ring[..cursz] == ring && Rotated(ring, cursz) == ring;
      return None, k;
    }

    /** The search of a scheduling pass: the first RUNNABLE entry of the lowest-numbered ring that
        has one is taken out; rings searched in vain keep their order, and exactly the entries skipped lose their
        cur_time. */
    method Search() returns (r: Option<nat>, ghost q: nat, ghost k: nat)
      requires Valid()
      modifies front, rear, sz, queue, proc
      ensures Valid()
      ensures r.Some? ==>
                && FirstRunnable(old(Rings()), old(proc[..]), q, k) && r.value == old(Rings())[q][k]
                && Rings() == old(Rings())[q := TakenAt(old(Rings())[q], k)]
                && proc[..] == Reset(old(proc[..]), Skipped(old(Rings()), q, k))
      ensures r.None? ==> && Rings() == old(Rings()) && proc[..] == Reset(old(proc[..]), Passed(Rings(), QUEUES))
                          && forall i :: 0 <= i < QUEUES ==> NoneRunnable(Rings()[i], old(proc[..]))
    {
      hide RingsOk, RingOk, RingSeq, TakenAt, Reset, Counting.Elems, NoneRunnable;
      ghost var rings, ps := Rings(), proc[..];
      q, k := 0, 0;
      ResetNone(ps);
      for i := 0 to QUEUES
        invariant Valid() && Rings() == rings && proc[..] == Reset(ps, Passed(rings, i))
        invariant forall j :: 0 <= j < i ==> NoneRunnable(rings[j], ps)
      {
        var empty := IsEmpty(i);
        PassEmpty(ps, rings, i);
        if !empty {
          r, k := SearchRing(i);
          SkipRing(ps, rings, i, k);
          if r.Some? {
            q := i;
            return;
          }
        }
      }
      r := None;
    }

    /** The search and the switch to the chosen process. */
    method DispatchOne() returns (r: Option<nat>, ghost q: nat, ghost k: nat)
      requires Valid()
      modifies front, rear, sz, queue, proc
      ensures Valid()
      ensures r.Some? ==> && FirstRunnable(old(Rings()), old(proc[..]), q, k) && r.value == old(Rings())[q][k]
                          && System() == Dispatched(old(System()), q, k)
      ensures r.Some? ==>
                && r.value < NPROC && !Queued(Rings(), r.value)
                && proc[r.value] == old(proc[r.value]).(state := RUNNING, wait_time := 0,
                                                        num_run := old(proc[r.value]).num_run + 1)
                && forall x: nat :: x < NPROC && x != r.value ==>
                     proc[x] == if x in Skipped(old(Rings()), q, k) then old(proc[x]).(cur_time := 0) else old(proc[x])
      ensures r.None? ==> && (forall i :: 0 <= i < QUEUES ==> NoneRunnable(old(Rings())[i], old(proc[..])))
                          && System() == old(System()).(ps := Reset(old(proc[..]), Passed(old(Rings()), QUEUES)))
    {
      hide RingsOk, RingOk, RingSeq, TakenAt, Reset, Skipped, Passed, NoneRunnable;
      r, q, k := Search();
      if r.Some? {
        var p := r.value;
        ghost var ps := proc[..];
        DispatchedEffect(old(System()), q, k);
        proc[p] := proc[p].(wait_time := 0);
        proc[p] := proc[p].(num_run := proc[p].num_run + 1);
        proc[p] := proc[p].(state := RUNNING);
        assert proc[..] == ps[p := ps[p].(state := RUNNING, wait_time := 0, num_run := ps[p].num_run + 1)];
      }
    }

    /** The loop that ends a pass: every RUNNABLE process is offered to ring 0. */
    method RequeueAll()
      requires Valid() && SysShape(System())
      modifies front, rear, sz, queue, proc
      ensures Valid() && System() == RequeuedTo(old(System()), NPROC)
      ensures Rings() == old(Rings())[0 := old(Rings())[0] + Ascending(Waiting(old(System())), NPROC)]
      ensures forall x: nat :: x < NPROC ==>
                proc[x] == if x in Waiting(old(System())) then old(proc[x]).(cur_time := 0) else old(proc[x])
    {
      hide RingsOk, RingOk, RingSeq, Queued, Pushed, Waiting, Ascending;
      RequeuedEffect(System(), NPROC);
      for p := 0 to NPROC
        invariant Valid() && System() == RequeuedTo(old(System()), p)
      {
        if proc[p].pid == 0 || proc[p].state != RUNNABLE {
        } else {
          Push(0, p);
        }
      }
    }

    /** The timer branch of trap(): ticks++ and modify_times, as one step. */
    method TimerTick()
      requires Valid() && SysShape(System())
      modifies this`ticks, front, rear, sz, queue, proc
      ensures Valid() && System() == Ticked(old(System()))
    {
      hide RingsOk, RingOk, RingSeq, Queued, Pushed;
      ticks := ticks + 1;
      ghost var s0 := System();
      for p := 0 to NPROC
        invariant Valid() && System() == TickTo(s0, p) && ticks == old(ticks) + 1
      {
        TickProc(p);
      }
    }

    /** One turn of modify_times. */
    method TickProc(p: nat)
      requires Valid() && SysShape(System()) && p < NPROC
      modifies front, rear, sz, queue, proc
      ensures Valid() && System() == TickOne(old(System()), p)
    {
      hide RingsOk, RingOk, RingSeq, Queued, Pushed;
      ghost var t := System();
      if proc[p].state == RUNNING {
        proc[p] := proc[p].(run_time := proc[p].run_time + 1);
        proc[p] := proc[p].(ticks := proc[p].ticks[proc[p].queueNo := proc[p].ticks[proc[p].queueNo] + 1]);
        proc[p] := proc[p].(cur_time := proc[p].cur_time + 1);
        assert Rings() == t.rings;
      } else {
        proc[p] := proc[p].(wait_time := proc[p].wait_time + 1);
        if proc[p].queueNo != 0 && proc[p].wait_time > AGE {
          proc[p] := proc[p].(queueNo := proc[p].queueNo - 1);
          proc[p] := proc[p].(cur_time := 0);
          proc[p] := proc[p].(wait_time := 0);
          assert Rings() == t.rings;
          assert proc[..] == t.ps[p := t.ps[p].(queueNo := t.ps[p].queueNo - 1, cur_time := 0, wait_time := 0)];
          Push(proc[p].queueNo, p);
        } else {
          assert Rings() == t.rings;
        }
      }
    }

    /** yield, for the running process p. */
    method Yield(p: nat)
      requires Valid() && SysShape(System()) && p < NPROC && proc[p].queueNo < QUEUES - 1
      modifies front, rear, sz, queue, proc
      ensures Valid() && System() == Yielded(old(System()), p)
      ensures var q := old(proc[p]).queueNo + 1;
              && proc[..] == old(proc[..])[p := old(proc[p]).(state := RUNNABLE, cur_time := 0, queueNo := q)]
              && Rings() == if Queued(old(Rings()), p) then old(Rings()) else old(Rings())[q := old(Rings())[q] + [p]]
    {
      hide RingsOk, RingOk, RingSeq, Queued, Pushed;
      ghost var s := System();
      proc[p] := proc[p].(state := RUNNABLE);
      proc[p] := proc[p].(cur_time := 0);
      proc[p] := proc[p].(queueNo := proc[p].queueNo + 1);
      assert Rings() == s.rings;
      assert proc[..] == s.ps[p := s.ps[p].(state := RUNNABLE, cur_time := 0, queueNo := s.ps[p].queueNo + 1)];
      PushInEffect(System(), proc[p].queueNo, p);
      Push(proc[p].queueNo, p);
    }

    /** The part of allocproc under ptable.lock: the first UNUSED slot, or none. */
    method Allocproc(pid: nat) returns (r: Option<nat>)
      requires Valid() && SysShape(System())
      modifies front, rear, sz, queue, proc
      ensures r.Some? ==> && r.value < NPROC && old(proc[..])[r.value].state == UNUSED
                          && (forall x :: 0 <= x < r.value ==> old(proc[..])[x].state != UNUSED)
                          && Valid() && System() == Allocated(old(System()), r.value, pid)
      ensures r.Some? ==> var pr := proc[r.value];
                && pr.state == EMBRYO && pr.pid == pid && pr.start_time == ticks && pr.chan == old(proc[r.value].chan)
                && pr.end_time == pr.run_time == pr.wait_time == pr.cur_time == 0 && pr.num_run == pr.queueNo == 0
                && pr.ticks == [0, 0, 0, 0, 0] && proc[..] == old(proc[..])[r.value := pr]
      ensures r.Some? ==>
                Rings() == if Queued(old(Rings()), r.value) then old(Rings())
                           else old(Rings())[0 := old(Rings())[0] + [r.value]]
      ensures r.None? ==> Valid() && System() == old(System()) && forall x :: 0 <= x < NPROC ==> proc[x].state != UNUSED
    {
      hide RingsOk, RingOk, RingSeq, Queued, Pushed;
      var p := 0;
      while p < NPROC && proc[p].state != UNUSED
        invariant p <= NPROC && forall x :: 0 <= x < p ==> proc[x].state != UNUSED
      {
        p := p + 1;
      }
      if p == NPROC {
        return None;
      }
      ghost var s := System();
      AllocatedEffect(s, p, pid);
      proc[p] := Proc(EMBRYO, pid, proc[p].chan, ticks, 0, 0, 0, 0, 0, [0, 0, 0, 0, 0], 0);
      assert Rings() == s.rings;
      assert proc[..] == s.ps[p := FreshProc(pid, s.now, s.ps[p])];
      for i := 0 to QUEUES
        invariant Valid() && System() == s.(ps := s.ps[p := FreshProc(pid, s.now, s.ps[p])])
        invariant forall j :: 0 <= j < i ==> |s.rings[j]| == NPROC
      {
        var full := IsFull(i);
        if !full {
          Push(i, p);
          return Some(p);
        }
      }
      return Some(p);
    }

    /** wakeup1. */
    method Wakeup1(chan: nat)
      requires Valid()
      modifies proc
      ensures Valid() && System() == old(System()).(ps := Woken(old(proc[..]), chan))
      ensures Rings() == old(Rings())
      ensures forall x :: 0 <= x < NPROC ==>
                proc[x] == if old(proc[x]).state == SLEEPING && old(proc[x]).chan == chan
                           then old(proc[x]).(state := RUNNABLE) else old(proc[x])
      ensures forall x :: 0 <= x < NPROC ==> !(proc[x].state == SLEEPING && proc[x].chan == chan)
    {
      hide RingsOk, RingOk, RingSeq;
      ghost var ps := proc[..];
      for p := 0 to NPROC
        invariant forall x :: 0 <= x < p ==> proc[x] == Woken(ps, chan)[x]
        invariant forall x :: p <= x < NPROC ==> proc[x] == ps[x]
      {
        if proc[p].state == SLEEPING && proc[p].chan == chan {
          proc[p] := proc[p].(state := RUNNABLE);
        }
      }
      assert proc[..] == Woken(ps, chan);
      assert Rings() == old(Rings());
    }
  }

  lemma PassEmpty(ps: seq<Proc>, rings: seq<seq<nat>>, i: nat)
    requires |ps| == NPROC && i < |rings|
    ensures rings[i] == [] ==> Passed(rings, i + 1) == Passed(rings, i) && NoneRunnable(rings[i], ps)
  {
  }

  /** k entries of ring i have been skipped after all entries of the rings before it. */
  lemma SkipRing(ps: seq<Proc>, rings: seq<seq<nat>>, i: nat, k: nat)
    requires |ps| == NPROC && i < |rings| && k <= |rings[i]|
    ensures var qs := Reset(ps, Passed(rings, i));
            && (forall x :: 0 <= x < NPROC ==> qs[x].state == ps[x].state)
            && Reset(qs, Counting.Elems(rings[i][..k])) == Reset(ps, Skipped(rings, i, k))
            && (NoneRunnable(rings[i][..k], qs) ==> NoneRunnable(rings[i][..k], ps))
    ensures k == |rings[i]| ==> Skipped(rings, i, k) == Passed(rings, i + 1) && rings[i][..k] == rings[i]
  {
    ResetMore(ps, Passed(rings, i), Counting.Elems(rings[i][..k]));
    assert k == |rings[i]| ==> rings[i][..k] == rings[i];
  }

  lemma NothingSkipped(ps: seq<Proc>, ring: seq<nat>)
    requires |ps| == NPROC
    ensures Reset(ps, Counting.Elems(ring[..0])) == ps && NoneRunnable(ring[..0], ps)
  {
    assert Counting.Elems(ring[..0]) == {};
  }

  /** Entry k of a ring after the entries before it have been skipped, and if it is skipped too. */
  lemma SkipOne(ps: seq<Proc>, ring: seq<nat>, k: nat)
    requires |ps| == NPROC && k < |ring| && ring[k] < NPROC && NoneRunnable(ring[..k], ps)
    ensures var p, qs := ring[k], Reset(ps, Counting.Elems(ring[..k]));
            && qs[p].state == ps[p].state
            && Reset(ps, Counting.Elems(ring[..k + 1])) == qs[p := qs[p].(cur_time := 0)]
            && (ps[p].state != RUNNABLE ==> NoneRunnable(ring[..k + 1], ps))
  {
    hide Counting.Elems;
    Counting.ElemsTake(ring, k);
    assert ring[..k + 1] == ring[..k] + [ring[k]];
    ResetOne(ps, Counting.Elems(ring[..k]), ring[k]);
  }

  lemma EmptyRing(r: int, n: int, row: seq<nat>)
    requires |row| == NPROC && RingOk(-1, r, n)
    ensures RingSeq(-1, r, row) == []
  {
  }

  lemma RingInRange(f: int, r: int, n: int)
    requires RingOk(f, r, n) && f != -1
    ensures 0 <= f < NPROC && 0 <= r < NPROC && n > 0
  {
  }

  lemma RingEntry(rings: seq<seq<nat>>, q: nat, k: nat)
    requires RingsOk(rings) && q < QUEUES && k < |rings[q]|
    ensures rings[q][k] < NPROC
  {
  }
}
