/**
 Choices of which calls are admitted, and the level of a token bucket that serves them.

 Time enters only through v: v[k] is the number of tokens the refill clock has produced by
 call k (rate times the reading of the clock), so refilling between two calls adds a difference
 of v. Nothing below asks v to be ordered: readings may arrive out of order.
 */
module Admissions {
  import opened Durations

  /** The number of admitted calls among calls i, i+1, ..., j-1. */
  function Count(adm: seq<bool>, i: nat, j: nat): nat
    requires j <= |adm|
    decreases j
  {
    if j <= i then 0 else Count(adm, i, j - 1) + if adm[j - 1] then 1 else 0
  }

  /**
   The tokens call k finds after its refill, when the earlier calls were admitted as adm says
   and call 0 found `start` tokens.
   */
  function Before(c: real, start: real, v: seq<real>, adm: seq<bool>, k: nat): real
    requires k < |v| && k <= |adm|
    decreases k, 0
  {
    if k == 0 then start else Min(c, After(c, start, v, adm, k - 1) + v[k] - v[k - 1])
  }

  /** The tokens call k leaves behind. */
  function After(c: real, start: real, v: seq<real>, adm: seq<bool>, k: nat): real
    requires k < |v| && k < |adm|
    decreases k, 1
  {
    Before(c, start, v, adm, k) - if adm[k] then 1.0 else 0.0
  }

  /** A bucket could serve this choice: every admitted call finds a whole token. */
  ghost predicate Servable(c: real, start: real, v: seq<real>, adm: seq<bool>) {
    && |adm| == |v|
    && forall k :: 0 <= k < |adm| ==> (adm[k] ==> Before(c, start, v, adm, k) >= 1.0)
  }

  /** The choice a token bucket makes: admit exactly when a whole token is there. */
  ghost predicate Greedy(c: real, start: real, v: seq<real>, adm: seq<bool>) {
    && |adm| == |v|
    && forall k :: 0 <= k < |adm| ==> (adm[k] <==> Before(c, start, v, adm, k) >= 1.0)
  }

  /** What calls i..k may use at most, less what they did use. */
  function Slack(c: real, start: real, v: seq<real>, adm: seq<bool>, i: nat, k: nat): real
    requires i <= k < |v| && k < |adm|
  {
    (if i == 0 then start else c) + v[k] - v[i] - Count(adm, i, k + 1) as real
  }

  /** One half of the closed form: the level never exceeds any interval's slack. */
  lemma {:induction false} LevelBelowSlack(c: real, start: real, v: seq<real>, adm: seq<bool>, i: nat, k: nat)
    requires i <= k < |v| && |adm| == |v|
    ensures After(c, start, v, adm, k) <= Slack(c, start, v, adm, i, k)
    decreases k
  {
    if i < k {
      LevelBelowSlack(c, start, v, adm, i, k - 1);
    } else {
      assert Count(adm, i, i) == 0;
    }
  }

  /** The other half: the level is the slack of some interval. */
  lemma {:induction false} LevelIsSomeSlack(c: real, start: real, v: seq<real>, adm: seq<bool>, k: nat) returns (i: nat)
    requires k < |v| && |adm| == |v|
    ensures i <= k && After(c, start, v, adm, k) == Slack(c, start, v, adm, i, k)
    decreases k
  {
    if k == 0 || After(c, start, v, adm, k - 1) + v[k] - v[k - 1] > c {
      i := k;
      assert Count(adm, k, k) == 0;
    } else {
      i := LevelIsSomeSlack(c, start, v, adm, k - 1);
    }
  }

  /**
   The level in min-plus form: after call k it is the least slack of the intervals ending there.
   */
  lemma LevelClosedForm(c: real, start: real, v: seq<real>, adm: seq<bool>, k: nat)
    requires k < |v| && |adm| == |v|
    ensures forall i :: 0 <= i <= k ==> After(c, start, v, adm, k) <= Slack(c, start, v, adm, i, k)
    ensures exists i :: 0 <= i <= k && After(c, start, v, adm, k) == Slack(c, start, v, adm, i, k)
  {
    forall i | 0 <= i <= k
      ensures After(c, start, v, adm, k) <= Slack(c, start, v, adm, i, k)
    {
      LevelBelowSlack(c, start, v, adm, i, k);
    }
    var i := LevelIsSomeSlack(c, start, v, adm, k);
  }

  /**
   A choice is servable exactly when no interval that ends in an admitted call admits more than
   it may: the conforming traffic of a token bucket.
   */
  lemma ServableExactlyWhenIntervalsConform(c: real, start: real, v: seq<real>, adm: seq<bool>)
    requires |adm| == |v|
    ensures Servable(c, start, v, adm)
       <==> forall i, k :: 0 <= i <= k < |v| && adm[k] ==> Slack(c, start, v, adm, i, k) >= 0.0
  {
    if Servable(c, start, v, adm) {
      forall i, k | 0 <= i <= k < |v| && adm[k]
        ensures Slack(c, start, v, adm, i, k) >= 0.0
      {
        LevelBelowSlack(c, start, v, adm, i, k);
      }
    }
    if forall i, k :: 0 <= i <= k < |v| && adm[k] ==> Slack(c, start, v, adm, i, k) >= 0.0 {
      forall k | 0 <= k < |adm| && adm[k]
        ensures Before(c, start, v, adm, k) >= 1.0
      {
        var i := LevelIsSomeSlack(c, start, v, adm, k);
      }
    }
  }

  /**
   The step behind greedy optimality: being d admissions ahead costs the bucket at most d tokens.
   */
  lemma {:induction false} GreedyStaysAhead(
      c: real, start: real, v: seq<real>, g: seq<bool>, alt: seq<bool>, k: nat)
    requires k < |v|
    requires Greedy(c, start, v, g) && Servable(c, start, v, alt)
    ensures Count(alt, 0, k) <= Count(g, 0, k)
    ensures Before(c, start, v, g, k) + Count(g, 0, k) as real
         >= Before(c, start, v, alt, k) + Count(alt, 0, k) as real
  {
    if k > 0 {
      GreedyStaysAhead(c, start, v, g, alt, k - 1);
    }
  }

  /** No servable choice has admitted more calls than the greedy one, at any prefix. */
  lemma GreedyIsOptimal(c: real, start: real, v: seq<real>, g: seq<bool>, alt: seq<bool>, n: nat)
    requires n <= |v|
    requires Greedy(c, start, v, g) && Servable(c, start, v, alt)
    ensures Count(alt, 0, n) <= Count(g, 0, n)
  {
    if n > 0 {
      GreedyStaysAhead(c, start, v, g, alt, n - 1);
    }
  }

  /** While the refill clock stands still, exactly the whole tokens there are handed out. */
  lemma {:induction false} FrozenLevel(c: real, start: real, v: seq<real>, g: seq<bool>, k: nat)
    requires k <= |v| && Greedy(c, start, v, g) && 0.0 <= start <= c
    requires forall i, j :: 0 <= i < |v| && 0 <= j < |v| ==> v[i] == v[j]
    ensures Count(g, 0, k) == Fewer(k, start.Floor)
    ensures k < |v| ==> Before(c, start, v, g, k) == start - Count(g, 0, k) as real
  {
    if k > 0 {
      FrozenLevel(c, start, v, g, k - 1);
      if k < |v| {
        assert v[k] == v[k - 1];
      }
    }
  }
}
