/** Logs of admissions: the clock readings of the calls that were admitted, in order. */
module Logs {
  /** The number of logged times in the half-open interval [lo, hi). */
  function CountIn(log: seq<int>, lo: int, hi: int): nat {
    if log == [] then
      0
    else
      CountIn(log[..|log| - 1], lo, hi) + if lo <= log[|log| - 1] < hi then 1 else 0
  }

  lemma {:induction false} CountInSplits(log: seq<int>, lo: int, mid: int, hi: int)
    requires lo <= mid <= hi
    ensures CountIn(log, lo, hi) == CountIn(log, lo, mid) + CountIn(log, mid, hi)
  {
    if log != [] {
      CountInSplits(log[..|log| - 1], lo, mid, hi);
    }
  }

  lemma {:induction false} NoneAfterLast(log: seq<int>, lo: int, hi: int)
    requires forall k :: 0 <= k < |log| ==> log[k] < lo
    ensures CountIn(log, lo, hi) == 0
  {
    if log != [] {
      NoneAfterLast(log[..|log| - 1], lo, hi);
    }
  }

  lemma CountInAppend(log: seq<int>, t: int, lo: int, hi: int)
    ensures CountIn(log + [t], lo, hi) == CountIn(log, lo, hi) + if lo <= t < hi then 1 else 0
  {
    assert (log + [t])[..|log|] == log;
  }

  lemma {:induction false} CountInMonotone(log: seq<int>, lo: int, hi: int, lo': int, hi': int)
    requires lo' <= lo && hi <= hi'
    ensures CountIn(log, lo, hi) <= CountIn(log, lo', hi')
  {
    if log != [] {
      CountInMonotone(log[..|log| - 1], lo, hi, lo', hi');
    }
  }

  lemma {:induction false} CountInJoins(a: seq<int>, b: seq<int>, lo: int, hi: int)
    ensures CountIn(a + b, lo, hi) == CountIn(a, lo, hi) + CountIn(b, lo, hi)
  {
    if b == [] {
      assert a + b == a;
    } else {
      var first, last := b[..|b| - 1], b[|b| - 1];
      assert b == first + [last] && a + b == (a + first) + [last];
      CountInJoins(a, first, lo, hi);
      CountInAppend(a + first, last, lo, hi);
    }
  }
}
