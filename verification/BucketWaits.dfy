/** The waits and counts a token bucket reports, against what it will really do. */
module BucketWaits {
  import opened Admissions
  import opened BucketRuns
  import opened Configs
  import opened Durations
  import opened TokenBuckets
  import Runs

  /** The exact time, in nanoseconds, a bucket needs to reach the given level. */
  function ExactWait(s: BucketState, level: real): real
    requires s.refillRate != 0.0
  {
    (level - s.tokens) / s.refillRate * 1_000_000_000.0
  }

  /** The exact instant at which a whole token is there. */
  function ReadyAt(s: BucketState): real
    requires s.refillRate != 0.0
  {
    s.lastRefill as real + ExactWait(s, 1.0)
  }

  lemma QuotientBound(x: real, y: real, r: real)
    requires r > 0.0
    ensures x * r >= y <==> x >= y / r
  {
    assert y / r * r == y;
  }

  lemma ReachesLevel(s: BucketState, level: real, now: int)
    requires s.refillRate > 0.0
    ensures s.tokens + Seconds(now - s.lastRefill) * s.refillRate >= level
       <==> now as real >= s.lastRefill as real + ExactWait(s, level)
  {
    QuotientBound(Seconds(now - s.lastRefill), level - s.tokens, s.refillRate);
  }

  /** A call is admitted exactly from the instant a whole token is there. */
  lemma AdmittedFromReadyAt(s: BucketState, now: int)
    requires s.refillRate > 0.0 && s.capacity >= 1.0
    ensures Admits(s, now) <==> now as real >= ReadyAt(s)
  {
    ReachesLevel(s, 1.0, now);
  }

  /** A denied call does not move that instant. */
  lemma DenialKeepsReadyAt(s: BucketState, now: int)
    requires s.refillRate > 0.0 && s.capacity >= 1.0 && !Admits(s, now)
    ensures ReadyAt(Next(s, now)) == ReadyAt(s)
  {
    var r, x := s.refillRate, Seconds(now - s.lastRefill);
    calc {
      (1.0 - (s.tokens + x * r)) / r;
      ((1.0 - s.tokens) - x * r) / r;
      { QuotientOfDifference(1.0 - s.tokens, x, r); }
      (1.0 - s.tokens) / r - x;
    }
  }

  lemma QuotientOfDifference(y: real, x: real, r: real)
    requires r != 0.0
    ensures (y - x * r) / r == y / r - x
  {
    var q := y / r;
    assert q * r == y;
    assert (y - x * r) == (q - x) * r;
    assert ((q - x) * r) / r == q - x;
  }

  /**
   The exact wait: whatever denied calls come in between, the first admitted call of a run is
   the first one made at or after the instant the bucket is ready.
   */
  lemma {:induction false} FirstAdmissionIsAtReadyAt(s: BucketState, times: seq<int>, k: nat)
    requires s.refillRate > 0.0 && s.capacity >= 1.0
    requires k < |times| && forall j :: 0 <= j < k ==> !Decisions(s, times)[j]
    ensures Decisions(s, times)[k] <==> times[k] as real >= ReadyAt(s)
  {
    DenialsKeepReadyAt(s, times, k);
    StateAtKeepsParameters(s, times, k);
    AdmittedFromReadyAt(StateAt(s, times, k), times[k]);
  }

  lemma {:induction false} DenialsKeepReadyAt(s: BucketState, times: seq<int>, k: nat)
    requires s.refillRate > 0.0 && s.capacity >= 1.0
    requires k <= |times| && forall j :: 0 <= j < k ==> !Decisions(s, times)[j]
    ensures StateAt(s, times, k).refillRate == s.refillRate
    ensures ReadyAt(StateAt(s, times, k)) == ReadyAt(s)
  {
    StateAtKeepsParameters(s, times, k);
    if k > 0 {
      DenialsKeepReadyAt(s, times, k - 1);
      StateAtKeepsParameters(s, times, k - 1);
      assert !Decisions(s, times)[k - 1];
      DenialKeepsReadyAt(StateAt(s, times, k - 1), times[k - 1]);
    }
  }

  /** The reported wait is the exact one, cut to whole nanoseconds. */
  lemma RetryAfterIsCutWait(s: BucketState, now: int)
    requires s.refillRate > 0.0 && s.capacity >= 1.0 && !Admits(s, now)
    ensures var retry := now + Report(Next(s, now), false).retryAfter;
            retry as real <= ReadyAt(s) < retry as real + 1.0
  {
    var after := Next(s, now);
    DenialKeepsReadyAt(s, now);
    assert after.tokens < 1.0;
    QuotientBound(0.0, 1.0 - after.tokens, after.refillRate);
    assert ExactWait(after, 1.0) >= 0.0;
  }

  /**
   A caller that retries exactly RetryAfter later, with only denied calls in between, gets in if
   and only if the exact wait is a whole number of nanoseconds; one nanosecond more is enough.
   */
  lemma RetryingAtRetryAfter(s: BucketState, now: int, times: seq<int>)
    requires s.refillRate > 0.0 && s.capacity >= 1.0 && !Admits(s, now)
    requires forall j :: 0 <= j < |times| ==> !Decisions(Next(s, now), times)[j]
    ensures var after := Next(s, now);
            var retry := now + Report(after, false).retryAfter;
            var wait := ExactWait(after, 1.0);
            && (Admits(StateAfter(after, times), retry) <==> wait == wait.Floor as real)
            && forall later :: later > retry ==> Admits(StateAfter(after, times), later)
  {
    var after := Next(s, now);
    DenialKeepsReadyAt(s, now);
    RetryAfterIsCutWait(s, now);
    DenialsKeepReadyAt(after, times, |times|);
    StateAtKeepsParameters(after, times, |times|);
    var retry := now + Report(after, false).retryAfter;
    AdmittedFromReadyAt(StateAfter(after, times), retry);
    forall later | later > retry
      ensures Admits(StateAfter(after, times), later)
    {
      AdmittedFromReadyAt(StateAfter(after, times), later);
    }
  }

  /**
   The Retry-After header: waiting that many whole seconds is enough unless the reported wait
   is a whole number of seconds and has been cut; one nanosecond on top is always enough.
   */
  lemma WaitingTheHeader(s: BucketState, now: int)
    requires s.refillRate > 0.0 && s.capacity >= 1.0 && !Admits(s, now)
    ensures var after := Next(s, now);
            var wait := Report(after, false).retryAfter;
            var header := HeaderSecondsCeil(wait) * 1_000_000_000;
            && Admits(after, now + header + 1)
            && (Admits(after, now + header) <==>
                !(wait % 1_000_000_000 == 0 && wait as real < ExactWait(after, 1.0)))
  {
    var after := Next(s, now);
    var wait := Report(after, false).retryAfter;
    var header := HeaderSecondsCeil(wait) * 1_000_000_000;
    DenialKeepsReadyAt(s, now);
    RetryAfterIsCutWait(s, now);
    HeaderCeilBounds(wait);
    AdmittedFromReadyAt(after, now + header);
    AdmittedFromReadyAt(after, now + header + 1);
  }

  lemma HeaderCeilBounds(d: int)
    ensures var header := HeaderSecondsCeil(d) * 1_000_000_000;
            && d <= header < d + 1_000_000_000
            && (header == d <==> d % 1_000_000_000 == 0)
  {
    CeilBounds(Seconds(d));
  }

  /**
   The header is not always enough, although it is rounded up: at 0.9999999999 requests a second
   the wait for a token is a fraction of a nanosecond over one second, and a client that waits
   the announced second is denied again.
   */
  lemma HeaderCanBeTooShort()
    ensures var s := Next(Fresh(1.0, 0.999_999_999_9, 0), 0);
            && !Admits(s, 0)
            && HeaderSecondsCeil(Report(Next(s, 0), false).retryAfter) == 1
            && !Admits(Next(s, 0), 1_000_000_000)
  {
    var s := Next(Fresh(1.0, 0.999_999_999_9, 0), 0);
    assert s.tokens == 0.0 && Next(s, 0).tokens == 0.0;
    assert Seconds(1_000_000_000) == 1.0;
    var exact := 1.0 / 0.999_999_999_9;
    assert exact * 0.999_999_999_9 == 1.0;
    assert 1.0 <= exact < 1.000_000_000_5;
    assert (exact * 1_000_000_000.0).Floor == 1_000_000_000;
    assert Report(Next(s, 0), false).retryAfter == 1_000_000_000;
  }

  /** A bucket is full exactly from lastRefill + the exact reset time. */
  lemma ResetAfterIsCutWait(s: BucketState, now: int)
    requires s.refillRate > 0.0 && s.tokens < s.capacity
    ensures Refilled(s, now) == s.capacity <==> now as real >= s.lastRefill as real + ExactWait(s, s.capacity)
    ensures ResetAfter(s) as real <= ExactWait(s, s.capacity) < ResetAfter(s) as real + 1.0
  {
    ReachesLevel(s, s.capacity, now);
    QuotientBound(0.0, s.capacity - s.tokens, s.refillRate);
  }

  lemma FrozenAccrual(rate: real, now: int, n: nat)
    ensures forall i, j :: 0 <= i < n && 0 <= j < n ==>
              Accrual(rate, AtOnce(now, n))[i] == Accrual(rate, AtOnce(now, n))[j]
  {
  }

  /** On a frozen clock exactly the whole tokens that are there are handed out. */
  lemma AdmittedAtOnce(s: BucketState, now: int, n: nat)
    requires Refilled(s, now) >= 0.0
    ensures Admitted(s, AtOnce(now, n)) == Fewer(n, Refilled(s, now).Floor)
  {
    hide StateAt, Decisions, Accrual;
    var times := AtOnce(now, n);
    DecisionsAreGreedy(s, times);
    if n > 0 {
      FrozenAccrual(s.refillRate, now, n);
      FrozenLevel(s.capacity, Start(s, times), Accrual(s.refillRate, times), Decisions(s, times), n);
    }
  }

  /** The reset header, rounded down twice, is still the exact reset time in whole seconds. */
  lemma ResetHeaderIsWholeSeconds(s: BucketState)
    requires s.refillRate > 0.0 && s.tokens < s.capacity
    ensures HeaderSeconds(ResetAfter(s)) == (ExactWait(s, s.capacity) / 1_000_000_000.0).Floor
  {
    ResetAfterIsCutWait(s, s.lastRefill);
    var header, exact := HeaderSeconds(ResetAfter(s)), ExactWait(s, s.capacity);
    assert header * 1_000_000_000 <= ResetAfter(s) <= header * 1_000_000_000 + 999_999_999;
    assert header as real <= exact / 1_000_000_000.0 < header as real + 1.0;
  }

  lemma RefillStep(s: BucketState, now: int)
    requires s.lastRefill <= now && 0.0 <= s.tokens <= s.capacity && s.refillRate >= 0.0
    ensures 0.0 <= Refilled(s, now) <= s.capacity
    ensures 0.0 <= Next(s, now).tokens <= s.capacity
  {
    assert Seconds(now - s.lastRefill) * s.refillRate >= 0.0;
  }

  /** On an ordered clock the tokens stay between zero and the capacity. */
  lemma {:induction false} TokensStayInRange(s: BucketState, times: seq<int>, k: nat)
    requires k <= |times| && Nondecreasing(times) && (times != [] ==> s.lastRefill <= times[0])
    requires 0.0 <= s.tokens <= s.capacity && s.refillRate >= 0.0
    ensures 0.0 <= StateAt(s, times, k).tokens <= s.capacity
  {
    if k > 0 {
      TokensStayInRange(s, times, k - 1);
      StateAtKeepsParameters(s, times, k - 1);
      RefillStep(StateAt(s, times, k - 1), times[k - 1]);
    }
  }

  /** Remaining is honest: exactly that many further calls are admitted at the same instant. */
  lemma RemainingIsHonest(s: BucketState, times: seq<int>, now: int, n: nat)
    requires Nondecreasing(times + [now]) && s.lastRefill <= (times + [now])[0]
    requires 0.0 <= s.tokens <= s.capacity && s.refillRate >= 0.0
    ensures var before := StateAfter(s, times);
            var after := Next(before, now);
            Admitted(after, AtOnce(now, n)) == Fewer(n, Report(after, Admits(before, now)).remaining)
  {
    var all := times + [now];
    TokensStayInRange(s, all, |all|);
    StateAtKeepsParameters(s, all, |all|);
    assert all[..|times|] == times[..|times|];
    Runs.DependsOnPrefix(Next, TokenBuckets.Admits, s, all, times, |times|);
    var after := Next(StateAfter(s, times), now);
    assert after == StateAt(s, all, |all|);
    assert Refilled(after, now) == after.tokens by {
      assert Seconds(now - after.lastRefill) == 0.0;
    }
    AdmittedAtOnce(after, now, n);
  }

  lemma OneOfBurst(s: BucketState)
    requires 1.0 <= s.tokens <= s.capacity
    ensures Next(s, s.lastRefill) == s.(tokens := s.tokens - 1.0)
  {
    assert Seconds(s.lastRefill - s.lastRefill) == 0.0;
  }

  /** A burst of the whole tokens of a new bucket leaves the fraction. */
  lemma {:induction false} BurstLeavesRest(capacity: real, rate: real, start: int, n: nat, k: nat)
    requires n as real <= capacity && k <= n
    ensures StateAt(Fresh(capacity, rate, start), AtOnce(start, n), k)
         == BucketState(capacity - k as real, start, capacity, rate)
  {
    hide Next;
    if k > 0 {
      BurstLeavesRest(capacity, rate, start, n, k - 1);
      OneOfBurst(BucketState(capacity - (k - 1) as real, start, capacity, rate));
    }
  }

  /** A call on a bucket that does not refill, and holds less than a token, finds and leaves less. */
  lemma StaysShort(s: BucketState, now: int)
    requires s.refillRate <= 0.0 && s.lastRefill <= now && s.tokens < 1.0
    ensures !Admits(s, now) && Refilled(s, now) < 1.0 && Next(s, now).tokens < 1.0
  {
    ScaleOrder(-s.refillRate, 0.0, Seconds(now - s.lastRefill));
  }

  lemma DenialSaysNever(s: BucketState, now: int)
    requires s.refillRate <= 0.0 && s.capacity >= 1.0 && !Admits(s, now)
    ensures var after := Next(s, now);
            && Report(after, false).retryAfter == NEVER_REFILLS && Report(after, false).resetAfter == NEVER_REFILLS
            && after.tokens < 1.0 && after.lastRefill == now
            && after.refillRate == s.refillRate && after.capacity == s.capacity
  {
  }

  /**
   A bucket that never refills says so: after a denial no later call is ever admitted, and none finds
   it full again.
   */
  lemma {:induction false} NeverRefills(s: BucketState, now: int, times: seq<int>, k: nat)
    requires s.refillRate <= 0.0 && s.capacity >= 1.0 && !Admits(s, now)
    requires Nondecreasing([now] + times) && k <= |times|
    ensures Report(Next(s, now), false).retryAfter == NEVER_REFILLS
    ensures Report(Next(s, now), false).resetAfter == NEVER_REFILLS
    ensures StateAt(Next(s, now), times, k).tokens < 1.0
    ensures k < |times| ==> !Decisions(Next(s, now), times)[k]
    ensures k < |times| ==> Refilled(StateAt(Next(s, now), times, k), times[k]) < s.capacity
  {
    hide Next, Admits, Refilled, Report;
    var after, all := Next(s, now), [now] + times;
    DenialSaysNever(s, now);
    StateAtKeepsParameters(after, times, k);
    if k > 0 {
      NeverRefills(s, now, times, k - 1);
      StateAtKeepsParameters(after, times, k - 1);
      assert all[k - 1] <= all[k];
      StaysShort(StateAt(after, times, k - 1), times[k - 1]);
    }
    if k < |times| {
      assert all[k] <= all[k + 1];
      StaysShort(StateAt(after, times, k), times[k]);
    }
  }
}
