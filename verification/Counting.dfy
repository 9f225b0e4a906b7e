/** Counting arguments shared by the fixed-size tables of the kernel. */
module Counting {
  ghost predicate Distinct(s: seq<nat>) {
    forall i, j :: 0 <= i < j < |s| ==> s[i] != s[j]
  }

  ghost predicate Below(s: seq<nat>, n: nat) {
    forall i :: 0 <= i < |s| ==> s[i] < n
  }

  /** At most n distinct numbers are below n. */
  lemma {:induction false} Pigeonhole(s: seq<nat>, n: nat)
    requires Distinct(s) && Below(s, n)
    ensures |s| <= n
  {
    assert s == [] || s[0] < n;
    if n > 0 {
      if k :| 0 <= k < |s| && s[k] == n - 1 {
        Pigeonhole(s[..k] + s[k + 1..], n - 1);
      } else {
        Pigeonhole(s, n - 1);
      }
    }
  }

  /** n distinct numbers below n are all of them. */
  lemma FullSequence(s: seq<nat>, n: nat, x: nat)
    requires Distinct(s) && Below(s, n) && |s| == n && x < n
    ensures x in s
  {
    if x !in s {
      Pigeonhole(s + [x], n);
    }
  }

  function Elems(s: seq<nat>): set<nat> {
    set i | 0 <= i < |s| :: s[i]
  }

  lemma {:induction false} DistinctSize(s: seq<nat>)
    requires Distinct(s)
    ensures |Elems(s)| == |s|
  {
    if s != [] {
      var p := s[..|s| - 1];
      DistinctSize(p);
      assert Elems(s) == Elems(p) + {s[|s| - 1]};
    }
  }

  /** The elements of a prefix, one longer at a time. */
  lemma ElemsTake(lh: seq<nat>, k: nat)
    requires k <= |lh|
    ensures k == 0 ==> Elems(lh[..k]) == {}
    ensures k < |lh| ==> Elems(lh[..k + 1]) == Elems(lh[..k]) + {lh[k]}
  {
    if k < |lh| {
      assert lh[..k + 1][k] == lh[k] && forall i :: 0 <= i < k ==> lh[..k + 1][i] == lh[..k][i];
      assert forall x :: x in Elems(lh[..k]) ==> x in Elems(lh[..k + 1]);
    }
  }
}
