/** Pipes: a ring of PIPESIZE bytes addressed by two 32-bit counters that wrap around. The ghost
    histories record every byte ever enqueued and every byte ever handed to a reader. */
module Pipe {
  import opened Basics
  import opened Blocks

  const PIPESIZE: nat := 512

  /** What a run of pipewrite's or piperead's loop ended with. */
  datatype Outcome = Done | MustSleep | Error

  /** Counters as unsigned 32-bit numbers. */
  function Wrap(x: int): (r: nat)
    ensures r < WORD_LIMIT
  {
    x % WORD_LIMIT
  }

  /** PIPESIZE divides 2^32, so a wrapped counter addresses the same slot as the true count. */
  lemma WrapKeepsSlot(x: nat)
    ensures Wrap(x) % PIPESIZE == x % PIPESIZE
  {
    var q := x / WORD_LIMIT;
    assert x == q * WORD_LIMIT + Wrap(x);
    SlotShift(Wrap(x), q);
  }

  lemma {:induction false} SlotShift(x: nat, q: nat)
    ensures (q * WORD_LIMIT + x) % PIPESIZE == x % PIPESIZE
  {
    if q > 0 {
      SlotShift(x, q - 1);
      var y := (q - 1) * WORD_LIMIT + x;
      assert (y + WORD_LIMIT) % PIPESIZE == y % PIPESIZE;
    }
  }

  lemma WrapIs(w: nat, q: int, r: nat)
    requires w == q * WORD_LIMIT + r && r < WORD_LIMIT
    ensures Wrap(w) == r
  {
  }

  /** One wrap-around at most lies between two counts that are close to each other. */
  lemma WrapNear(w: nat, r: nat)
    requires r <= w < r + WORD_LIMIT
    ensures Wrap(w) == Wrap(r) + (w - r) || Wrap(w) == Wrap(r) + (w - r) - WORD_LIMIT
  {
    var q := r / WORD_LIMIT;
    var d := Wrap(r) + (w - r);
    assert r == q * WORD_LIMIT + Wrap(r);
    if d < WORD_LIMIT {
      WrapIs(w, q, d);
    } else {
      WrapIs(w, q + 1, d - WORD_LIMIT);
    }
  }

  /** Counts that differ by at most PIPESIZE are equal, or PIPESIZE apart, exactly when their
      wrapped counters are. */
  lemma WrapCompares(w: nat, r: nat)
    requires r <= w <= r + PIPESIZE
    ensures Wrap(w) == Wrap(r) <==> w == r
    ensures Wrap(w) == Wrap(Wrap(r) + PIPESIZE) <==> w == r + PIPESIZE
    ensures Wrap(Wrap(w) + 1) == Wrap(w + 1) && Wrap(Wrap(r) + 1) == Wrap(r + 1)
    ensures Wrap(Wrap(w) - Wrap(r)) == w - r
  {
    WrapNear(w, r);
    WrapAdds(w, 1);
    WrapAdds(r, 1);
    WrapAdds(r, PIPESIZE);
    WrapNear(r + PIPESIZE, w);
    WrapDifference(w, r);
    hide Wrap;
  }

  lemma WrapAdds(r: nat, k: nat)
    requires k < WORD_LIMIT
    ensures Wrap(Wrap(r) + k) == Wrap(r + k)
  {
    WrapNear(r + k, r);
    WrapNear(Wrap(r) + k, Wrap(r));
  }

  lemma WrapDifference(w: nat, r: nat)
    requires r <= w <= r + PIPESIZE
    ensures Wrap(Wrap(w) - Wrap(r)) == w - r
  {
    WrapNear(w, r);
  }

  lemma SlotsDiffer(a: nat, b: nat)
    requires a < b < a + PIPESIZE
    ensures a % PIPESIZE != b % PIPESIZE
  {
  }

  class PipeBuf {
    const data: array<byte>
    var nread: nat
    var nwrite: nat
    var readopen: bool
    var writeopen: bool
    ghost var enqueued: seq<byte>
    ghost var dequeued: seq<byte>

    /** The bytes read are a prefix of the bytes written, the difference is what the ring holds, and
        the counters are the true counts modulo 2^32. */
    ghost predicate Valid()
      reads this, data
    {
      && data.Length == PIPESIZE
      && dequeued <= enqueued
      && |enqueued| - |dequeued| <= PIPESIZE
      && nread == Wrap(|dequeued|) && nwrite == Wrap(|enqueued|)
      && forall k :: |dequeued| <= k < |enqueued| ==> data[k % PIPESIZE] == enqueued[k]
    }

    constructor ()
      ensures Valid() && fresh(data) && enqueued == [] && dequeued == [] && readopen && writeopen
    {
      data := new byte[PIPESIZE](_ => 0);
      nread, nwrite, readopen, writeopen := 0, 0, true, true;
      enqueued, dequeued := [], [];
    }

    /** One uninterrupted run of pipewrite's loop from byte i, until the bytes are out or the pipe is
        full; then it sleeps, or fails if nobody can read or the caller was killed. */
    method WriteRun(src: seq<byte>, i: nat, killed: bool) returns (j: nat, r: Outcome)
      requires Valid() && i <= |src|
      modifies this`nwrite, this`enqueued, data
      ensures Valid() && i <= j <= |src|
      ensures enqueued == old(enqueued) + src[i..j]
      ensures r.Done? <==> j == |src|
      ensures !r.Done? ==> |enqueued| - |dequeued| == PIPESIZE && (r.Error? <==> !readopen || killed)
    {
      j := i;
      while j < |src|
        invariant i <= j <= |src| && Valid() && enqueued == old(enqueued) + src[i..j]
      {
        WrapCompares(|enqueued|, |dequeued|);
        if nwrite == Wrap(nread + PIPESIZE) {
          if !readopen || killed {
            return j, Error;
          }
          return j, MustSleep;
        }
        Put(src[j]);
        j := j + 1;
      }
      r := Done;
    }

    /** p->data[p->nwrite++ % PIPESIZE] = c */
    method Put(c: byte)
      requires Valid() && |enqueued| - |dequeued| < PIPESIZE
      modifies this`nwrite, this`enqueued, data
      ensures Valid() && enqueued == old(enqueued) + [c]
    {
      WrapKeepsSlot(|enqueued|);
      WrapCompares(|enqueued|, |dequeued|);
      forall k | |dequeued| <= k < |enqueued|
        ensures k % PIPESIZE != |enqueued| % PIPESIZE
      {
        SlotsDiffer(k, |enqueued|);
      }
      data[nwrite % PIPESIZE] := c;
      nwrite := Wrap(nwrite + 1);
      enqueued := enqueued + [c];
    }

    /** One run of piperead: sleep while the pipe is empty and a writer is left, otherwise take what is
        there, up to n bytes. */
    method ReadRun(n: nat, killed: bool) returns (r: Outcome, dst: seq<byte>)
      requires Valid()
      modifies this`nread, this`dequeued
      ensures Valid() && dequeued == old(dequeued) + dst
      ensures !r.Done? ==> dst == [] && enqueued == dequeued && writeopen && (r.Error? <==> killed)
      ensures r.Done? ==> |dst| == Min(n, |enqueued| - |old(dequeued)|)
      ensures r.Done? ==> dst == enqueued[|old(dequeued)|..|old(dequeued)| + |dst|]
      ensures r.Done? <==> old(dequeued) != enqueued || !writeopen
    {
      hide Wrap;
      dst := [];
      WrapCompares(|enqueued|, |dequeued|);
      if nread == nwrite && writeopen {
        return if killed then Error else MustSleep, dst;
      }
      var i := 0;
      while i < n && nread != nwrite
        invariant i <= n && |dst| == i && Valid() && dequeued == old(dequeued) + dst
        invariant (nread == nwrite) == (dequeued == enqueued)
        invariant writeopen ==> old(dequeued) != enqueued
        decreases n - i
      {
        WrapKeepsSlot(|dequeued|);
        WrapCompares(|enqueued|, |dequeued|);
        var c := data[nread % PIPESIZE];
        dst := dst + [c];
        nread := Wrap(nread + 1);
        dequeued := dequeued + [c];
        i := i + 1;
        WrapCompares(|enqueued|, |dequeued|);
      }
      r := Done;
    }

    method Close(writable: bool)
      requires Valid()
      modifies this`readopen, this`writeopen
      ensures Valid()
      ensures readopen == (old(readopen) && writable) && writeopen == (old(writeopen) && !writable)
    {
      if writable {
        writeopen := false;
      } else {
        readopen := false;
      }
    }

    /** The number of bytes in flight, as the C code computes it from the counters alone. */
    lemma InFlight()
      requires Valid()
      ensures Wrap(nwrite - nread) == |enqueued| - |dequeued| <= PIPESIZE
    {
      WrapCompares(|enqueued|, |dequeued|);
    }
  }
}
