/** What a token bucket guarantees over whole runs of calls. */
module BucketRuns {
  import opened Admissions
  import opened Durations
  import opened Logs
  import opened TokenBuckets
  import Runs

  /** The bucket after the first k calls of a run. */
  function StateAt(s: BucketState, times: seq<int>, k: nat): BucketState
    requires k <= |times|
  {
    Runs.StateAt(Next, s, times, k)
  }

  /** The bucket after a whole run. */
  function StateAfter(s: BucketState, times: seq<int>): BucketState {
    StateAt(s, times, |times|)
  }

  /** Which calls of a run are admitted. */
  function Decisions(s: BucketState, times: seq<int>): (adm: seq<bool>)
    ensures |adm| == |times|
  {
    Runs.Decisions(Next, Admits, s, times)
  }

  /** The number of calls of a run that are admitted. */
  function Admitted(s: BucketState, times: seq<int>): nat {
    Count(Decisions(s, times), 0, |times|)
  }

  /** The full log: the readings of the admissions among the first k calls. */
  function LogAt(s: BucketState, times: seq<int>, k: nat): seq<int>
    requires k <= |times|
  {
    Runs.LogAt(Next, Admits, s, times, k)
  }

  /** The tokens produced by the refill clock up to each call. */
  function Accrual(rate: real, times: seq<int>): (v: seq<real>)
    ensures |v| == |times|
  {
    seq(|times|, k requires 0 <= k < |times| => Seconds(times[k]) * rate)
  }

  /** The tokens the first call of a run finds. */
  function Start(s: BucketState, times: seq<int>): real {
    if times == [] then s.capacity else Refilled(s, times[0])
  }

  /** What a bucket may admit over d nanoseconds. */
  function Cap(s: BucketState, d: int): real {
    s.capacity + s.refillRate * Seconds(d)
  }

  lemma CapGrows(s: BucketState, d: int, d': int)
    requires s.refillRate >= 0.0 && d <= d'
    ensures Cap(s, d) <= Cap(s, d')
  {
    ScaleOrder(s.refillRate, Seconds(d), Seconds(d'));
  }

  lemma CapOfNothing(s: BucketState)
    ensures Cap(s, 0) == s.capacity
  {
  }

  /** What a conforming schedule may admit from call i to call k of a run. */
  function Allowance(s: BucketState, times: seq<int>, i: nat, k: nat): real
    requires i <= k < |times|
  {
    Cap(s, times[k] - times[i])
  }

  /** A bucket that no call has drawn from yet, or that has been idle long enough. */
  ghost predicate Full(s: BucketState) {
    s.tokens == s.capacity && s.refillRate >= 0.0
  }

  lemma {:induction false} StateAtKeepsParameters(s: BucketState, times: seq<int>, k: nat)
    requires k <= |times|
    ensures StateAt(s, times, k).capacity == s.capacity
    ensures StateAt(s, times, k).refillRate == s.refillRate
    ensures k > 0 ==> StateAt(s, times, k).lastRefill == times[k - 1]
    ensures k > 0 ==> StateAt(s, times, k).tokens <= s.capacity
  {
    if k > 0 {
      StateAtKeepsParameters(s, times, k - 1);
    }
  }

  lemma RefillIsAccrual(rate: real, from: int, to: int)
    ensures Seconds(to - from) * rate == Seconds(to) * rate - Seconds(from) * rate
  {
    assert Seconds(to - from) == Seconds(to) - Seconds(from);
  }

  lemma RefillByClock(b: BucketState, now: int)
    ensures Refilled(b, now)
         == Min(b.capacity, b.tokens + (Seconds(now) * b.refillRate - Seconds(b.lastRefill) * b.refillRate))
  {
    RefillIsAccrual(b.refillRate, b.lastRefill, now);
  }

  /** One refill of a run, told by the refill clock. */
  lemma RefillInRun(s: BucketState, times: seq<int>, k: nat)
    requires 0 < k < |times|
    ensures var v := Accrual(s.refillRate, times);
            Refilled(StateAt(s, times, k), times[k])
            == Min(s.capacity, StateAt(s, times, k).tokens + (v[k] - v[k - 1]))
  {
    hide StateAt, Refilled, Seconds;
    StateAtKeepsParameters(s, times, k);
    RefillByClock(StateAt(s, times, k), times[k]);
  }

  /** One call of a run: what it finds, less what it takes. */
  lemma CallInRun(s: BucketState, times: seq<int>, k: nat)
    requires k < |times|
    ensures StateAt(s, times, k + 1).tokens
         == Refilled(StateAt(s, times, k), times[k]) - if Decisions(s, times)[k] then 1.0 else 0.0
    ensures k == 0 ==> Refilled(StateAt(s, times, k), times[k]) == Start(s, times)
  {
    hide Refilled;
  }

  /** The code's running token count is the level of the abstract bucket. */
  lemma {:induction false} TokensAreLevel(s: BucketState, times: seq<int>, k: nat)
    requires k < |times|
    ensures var v, adm := Accrual(s.refillRate, times), Decisions(s, times);
            && Refilled(StateAt(s, times, k), times[k]) == Before(s.capacity, Start(s, times), v, adm, k)
            && StateAt(s, times, k + 1).tokens == After(s.capacity, Start(s, times), v, adm, k)
  {
    hide StateAt, Refilled, Decisions, Accrual, Start;
    CallInRun(s, times, k);
    if k > 0 {
      TokensAreLevel(s, times, k - 1);
      RefillInRun(s, times, k);
    }
  }

  /** A bucket makes the greedy choice. */
  lemma DecisionsAreGreedy(s: BucketState, times: seq<int>)
    ensures Greedy(s.capacity, Start(s, times), Accrual(s.refillRate, times), Decisions(s, times))
  {
    forall k | 0 <= k < |times|
      ensures Decisions(s, times)[k] <==>
              Before(s.capacity, Start(s, times), Accrual(s.refillRate, times), Decisions(s, times), k) >= 1.0
    {
      TokensAreLevel(s, times, k);
    }
  }

  lemma AccruedBetween(rate: real, times: seq<int>, i: nat, k: nat)
    requires i <= k < |times|
    ensures Accrual(rate, times)[k] - Accrual(rate, times)[i] == rate * Seconds(times[k] - times[i])
  {
    RefillIsAccrual(rate, times[i], times[k]);
  }

  lemma StartWithinCapacity(s: BucketState, times: seq<int>)
    ensures Start(s, times) <= s.capacity
  {
  }

  lemma SlackIsAllowance(s: BucketState, times: seq<int>, adm: seq<bool>, i: nat, k: nat)
    requires i <= k < |times| && |adm| == |times|
    ensures Slack(s.capacity, Start(s, times), Accrual(s.refillRate, times), adm, i, k)
         <= Allowance(s, times, i, k) - Count(adm, i, k + 1) as real
    ensures (i > 0 || Start(s, times) == s.capacity) ==>
              Slack(s.capacity, Start(s, times), Accrual(s.refillRate, times), adm, i, k)
              == Allowance(s, times, i, k) - Count(adm, i, k + 1) as real
  {
    hide Accrual, Start, Seconds, Count;
    AccruedBetween(s.refillRate, times, i, k);
    StartWithinCapacity(s, times);
  }

  lemma FullStaysFull(s: BucketState, now: int)
    requires Full(s) && s.lastRefill <= now
    ensures Refilled(s, now) == s.capacity
  {
    assert Seconds(now - s.lastRefill) * s.refillRate >= 0.0;
  }

  /**
   From a full start, the tokens after call k are the least, over the intervals of calls ending
   there, of what the interval may use less what it did use.
   */
  lemma TokensClosedForm(s: BucketState, times: seq<int>, k: nat)
    requires k < |times| && Full(s) && s.lastRefill <= times[0]
    ensures forall i :: 0 <= i <= k ==>
              StateAt(s, times, k + 1).tokens
              <= Allowance(s, times, i, k) - Count(Decisions(s, times), i, k + 1) as real
    ensures exists i :: 0 <= i <= k &&
              StateAt(s, times, k + 1).tokens
              == Allowance(s, times, i, k) - Count(Decisions(s, times), i, k + 1) as real
  {
    var v, adm := Accrual(s.refillRate, times), Decisions(s, times);
    FullStaysFull(s, times[0]);
    TokensAreLevel(s, times, k);
    LevelClosedForm(s.capacity, Start(s, times), v, adm, k);
    forall i | 0 <= i <= k
      ensures Slack(s.capacity, Start(s, times), v, adm, i, k)
           == Allowance(s, times, i, k) - Count(adm, i, k + 1) as real
    {
      SlackIsAllowance(s, times, adm, i, k);
    }
  }

  /**
   Conservation: whatever bucket a run starts from and in whatever order its readings come, the
   calls up to an admitted one admit no more than the capacity plus what accrued between them.
   */
  lemma AdmissionsUpToAdmittedCall(s: BucketState, times: seq<int>, i: nat, k: nat)
    requires i <= k < |times| && Decisions(s, times)[k]
    ensures Count(Decisions(s, times), i, k + 1) as real <= Allowance(s, times, i, k)
  {
    var v, adm := Accrual(s.refillRate, times), Decisions(s, times);
    TokensAreLevel(s, times, k);
    LevelBelowSlack(s.capacity, Start(s, times), v, adm, i, k);
    SlackIsAllowance(s, times, adm, i, k);
  }

  /** Unadmitted calls at the end of an interval do not matter on an ordered clock. */
  lemma {:induction false} ConformsAtAdmittedEnds(s: BucketState, times: seq<int>, alt: seq<bool>, i: nat, k: nat)
    requires i <= k < |times| && |alt| == |times|
    requires Nondecreasing(times) && s.capacity >= 0.0 && s.refillRate >= 0.0
    requires forall m :: i <= m <= k && alt[m] ==> Count(alt, i, m + 1) as real <= Allowance(s, times, i, m)
    ensures Count(alt, i, k + 1) as real <= Allowance(s, times, i, k)
    decreases k
  {
    hide Cap;
    if !alt[k] {
      if i < k {
        ConformsAtAdmittedEnds(s, times, alt, i, k - 1);
        CapGrows(s, times[k - 1] - times[i], times[k] - times[i]);
      } else {
        assert Count(alt, k, k) == 0;
        CapOfNothing(s);
      }
    }
  }

  /** On an ordered clock the bound holds for every interval of calls. */
  lemma AdmissionsInInterval(s: BucketState, times: seq<int>, i: nat, k: nat)
    requires i <= k < |times| && Nondecreasing(times) && s.capacity >= 0.0 && s.refillRate >= 0.0
    ensures Count(Decisions(s, times), i, k + 1) as real <= Allowance(s, times, i, k)
  {
    forall m | i <= m <= k && Decisions(s, times)[m]
      ensures Count(Decisions(s, times), i, m + 1) as real <= Allowance(s, times, i, m)
    {
      AdmissionsUpToAdmittedCall(s, times, i, m);
    }
    ConformsAtAdmittedEnds(s, times, Decisions(s, times), i, k);
  }

  /** A full bucket with the same parameters could serve these admissions. */
  ghost predicate CouldServe(s: BucketState, times: seq<int>, alt: seq<bool>) {
    Servable(s.capacity, s.capacity, Accrual(s.refillRate, times), alt)
  }

  /** Every interval of calls keeps to the capacity plus what accrues over it. */
  ghost predicate Conforms(s: BucketState, times: seq<int>, alt: seq<bool>)
    requires |alt| == |times|
  {
    forall i, k :: 0 <= i <= k < |times| ==> Count(alt, i, k + 1) as real <= Allowance(s, times, i, k)
  }

  /** On an ordered clock a full bucket can serve exactly the conforming choices. */
  lemma ServableIffConforms(s: BucketState, times: seq<int>, alt: seq<bool>)
    requires |alt| == |times| && Nondecreasing(times) && Full(s) && s.capacity >= 0.0
    requires times != [] ==> s.lastRefill <= times[0]
    ensures CouldServe(s, times, alt) <==> Conforms(s, times, alt)
  {
    if times != [] {
      FullStaysFull(s, times[0]);
    }
    var v := Accrual(s.refillRate, times);
    ServableExactlyWhenIntervalsConform(s.capacity, s.capacity, v, alt);
    forall i, k | 0 <= i <= k < |times|
      ensures Slack(s.capacity, s.capacity, v, alt, i, k)
           == Allowance(s, times, i, k) - Count(alt, i, k + 1) as real
    {
      SlackIsAllowance(s, times, alt, i, k);
    }
    if CouldServe(s, times, alt) {
      forall i, k | 0 <= i <= k < |times|
        ensures Count(alt, i, k + 1) as real <= Allowance(s, times, i, k)
      {
        ConformsAtAdmittedEnds(s, times, alt, i, k);
      }
    }
  }

  /**
   Greedy optimality: no other choice of admissions that a full bucket could serve has admitted
   more requests at any point of the run.
   */
  lemma BucketIsOptimal(s: BucketState, times: seq<int>, alt: seq<bool>, n: nat)
    requires n <= |times| && Full(s) && (times != [] ==> s.lastRefill <= times[0])
    requires CouldServe(s, times, alt)
    ensures Count(alt, 0, n) <= Count(Decisions(s, times), 0, n)
  {
    if times != [] {
      FullStaysFull(s, times[0]);
    }
    DecisionsAreGreedy(s, times);
    GreedyIsOptimal(s.capacity, s.capacity, Accrual(s.refillRate, times), Decisions(s, times), alt, n);
  }

  /**
   The bucket's own choice conforms, and no conforming choice ever admits more: admitting
   greedily is the best a client can be given within capacity + rate * length.
   */
  lemma BucketIsBestConforming(s: BucketState, times: seq<int>, alt: seq<bool>, n: nat)
    requires n <= |times| && |alt| == |times|
    requires Nondecreasing(times) && Full(s) && s.capacity >= 0.0 && (times != [] ==> s.lastRefill <= times[0])
    requires Conforms(s, times, alt)
    ensures Conforms(s, times, Decisions(s, times))
    ensures Count(alt, 0, n) <= Count(Decisions(s, times), 0, n)
  {
    forall i, k | 0 <= i <= k < |times|
      ensures Count(Decisions(s, times), i, k + 1) as real <= Allowance(s, times, i, k)
    {
      AdmissionsInInterval(s, times, i, k);
    }
    ServableIffConforms(s, times, alt);
    BucketIsOptimal(s, times, alt, n);
  }

  /** Readings on an ordered clock, all within [from, to]. */
  ghost predicate Within(times: seq<int>, from: int, to: int) {
    && from <= to && Nondecreasing(times)
    && forall k :: 0 <= k < |times| ==> from <= times[k] <= to
  }

  /** The log holds no more readings in an interval than were admitted from its first call on. */
  lemma {:induction false} LogFrom(s: BucketState, times: seq<int>, k: nat, i: nat, lo: int, hi: int)
    requires k <= |times| && forall j :: 0 <= j < i && j < k ==> times[j] < lo
    ensures CountIn(LogAt(s, times, k), lo, hi) <= Count(Decisions(s, times), i, k)
    decreases k
  {
    hide Next, Admits;
    if k > 0 {
      LogFrom(s, times, k - 1, i, lo, hi);
      CountInAppend(LogAt(s, times, k - 1), times[k - 1], lo, hi);
    }
  }

  /** The first call at or after `lo`. */
  function FirstFrom(times: seq<int>, lo: int): (i: nat)
    ensures i <= |times| && (i < |times| ==> lo <= times[i])
    ensures forall j :: 0 <= j < i ==> times[j] < lo
  {
    if times == [] || times[0] >= lo then 0 else 1 + FirstFrom(times[1..], lo)
  }

  /**
   The rate of a bucket: in every run on an ordered clock, from whatever it held before, the
   admissions with readings in [lo, hi] number at most capacity + rate * length.
   */
  lemma {:induction false} AdmittedBetween(s: BucketState, times: seq<int>, k: nat, lo: int, hi: int)
    requires k <= |times| && Nondecreasing(times) && s.capacity >= 0.0 && s.refillRate >= 0.0 && lo <= hi
    ensures CountIn(LogAt(s, times, k), lo, hi + 1) as real <= Cap(s, hi - lo)
    decreases k
  {
    hide Next, Admits, Cap, Decisions;
    var i := FirstFrom(times, lo);
    if k > 0 && times[k - 1] > hi {
      AdmittedBetween(s, times, k - 1, lo, hi);
      CountInAppend(LogAt(s, times, k - 1), times[k - 1], lo, hi + 1);
    } else {
      LogFrom(s, times, k, i, lo, hi + 1);
      CapOfNothing(s);
      CapGrows(s, 0, hi - lo);
      if i < k {
        AdmissionsInInterval(s, times, i, k - 1);
        CapGrows(s, times[k - 1] - times[i], hi - lo);
      }
    }
  }

  /** What any bucket with these parameters admits between two instants. */
  lemma AdmittedWithin(b: BucketState, times: seq<int>, from: int, to: int)
    requires Within(times, from, to) && b.capacity >= 0.0 && b.refillRate >= 0.0
    ensures Admitted(b, times) as real <= b.capacity + b.refillRate * Seconds(to - from)
  {
    hide Decisions;
    assert Cap(b, to - from) == b.capacity + b.refillRate * Seconds(to - from);
    hide Cap;
    CapOfNothing(b);
    CapGrows(b, 0, to - from);
    if times != [] {
      var last := |times| - 1;
      AdmissionsInInterval(b, times, 0, last);
      CapGrows(b, times[last] - times[0], to - from);
    }
  }
}
