/** Runs of calls against a limiter of any kind, given by the step it takes and the calls it admits. */
module Runs {
  import opened Admissions

  /** The limiter after the first k calls of a run. */
  function StateAt<S>(next: (S, int) -> S, s: S, times: seq<int>, k: nat): S
    requires k <= |times|
  {
    if k == 0 then s else next(StateAt(next, s, times, k - 1), times[k - 1])
  }

  /** The limiter after a whole run. */
  function StateAfter<S>(next: (S, int) -> S, s: S, times: seq<int>): S {
    StateAt(next, s, times, |times|)
  }

  /** Which calls of a run are admitted. */
  function Decisions<S>(next: (S, int) -> S, admits: (S, int) -> bool, s: S, times: seq<int>): (adm: seq<bool>)
    ensures |adm| == |times|
  {
    seq(|times|, k requires 0 <= k < |times| => admits(StateAt(next, s, times, k), times[k]))
  }

  /** The readings of the admitted calls among the first k. */
  function LogAt<S>(next: (S, int) -> S, admits: (S, int) -> bool, s: S, times: seq<int>, k: nat): seq<int>
    requires k <= |times|
  {
    if k == 0 then
      []
    else
      var log := LogAt(next, admits, s, times, k - 1);
      if admits(StateAt(next, s, times, k - 1), times[k - 1]) then log + [times[k - 1]] else log
  }

  function LogAfter<S>(next: (S, int) -> S, admits: (S, int) -> bool, s: S, times: seq<int>): seq<int> {
    LogAt(next, admits, s, times, |times|)
  }

  lemma {:induction false} DependsOnPrefix<S>(
      next: (S, int) -> S, admits: (S, int) -> bool, s: S, a: seq<int>, b: seq<int>, k: nat)
    requires k <= |a| && k <= |b| && a[..k] == b[..k]
    ensures StateAt(next, s, a, k) == StateAt(next, s, b, k)
    ensures LogAt(next, admits, s, a, k) == LogAt(next, admits, s, b, k)
  {
    if k > 0 {
      assert a[..k][k - 1] == a[k - 1] && b[..k][k - 1] == b[k - 1];
      assert a[..k - 1] == a[..k][..k - 1] && b[..k - 1] == b[..k][..k - 1];
      DependsOnPrefix(next, admits, s, a, b, k - 1);
    }
  }

  /** A run splits at any point: the rest of it is a run from the state reached there. */
  lemma {:induction false} Splits<S>(
      next: (S, int) -> S, admits: (S, int) -> bool, s: S, a: seq<int>, b: seq<int>, k: nat)
    requires k <= |b|
    ensures StateAt(next, s, a + b, |a| + k) == StateAt(next, StateAfter(next, s, a), b, k)
    ensures LogAt(next, admits, s, a + b, |a| + k)
         == LogAfter(next, admits, s, a) + LogAt(next, admits, StateAfter(next, s, a), b, k)
  {
    if k == 0 {
      assert (a + b)[..|a|] == a[..|a|];
      DependsOnPrefix(next, admits, s, a + b, a, |a|);
    } else {
      Splits(next, admits, s, a, b, k - 1);
    }
  }

  /** Two runs in a row are one run. */
  lemma Join<S>(next: (S, int) -> S, admits: (S, int) -> bool, s: S, a: seq<int>, b: seq<int>)
    ensures StateAfter(next, s, a + b) == StateAfter(next, StateAfter(next, s, a), b)
    ensures LogAfter(next, admits, s, a + b)
         == LogAfter(next, admits, s, a) + LogAfter(next, admits, StateAfter(next, s, a), b)
  {
    Splits(next, admits, s, a, b, |b|);
  }

  /** A run of one call. */
  lemma OneCall<S>(next: (S, int) -> S, admits: (S, int) -> bool, s: S, t: int)
    ensures StateAfter(next, s, [t]) == next(s, t)
    ensures LogAfter(next, admits, s, [t]) == if admits(s, t) then [t] else []
  {
    assert StateAt(next, s, [t], 0) == s;
    assert LogAt(next, admits, s, [t], 0) == [];
  }

  /** The log has an entry for every admission. */
  lemma {:induction false} LogIsAdmitted<S>(
      next: (S, int) -> S, admits: (S, int) -> bool, s: S, times: seq<int>, k: nat)
    requires k <= |times|
    ensures |LogAt(next, admits, s, times, k)| == Count(Decisions(next, admits, s, times), 0, k)
  {
    if k > 0 {
      LogIsAdmitted(next, admits, s, times, k - 1);
    }
  }
}
