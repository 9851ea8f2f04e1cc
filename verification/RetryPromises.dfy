/**
 When a client that waits as a token bucket tells it to is served, whatever happened before: exact
 conditions on the configuration alone.
 */
module RetryPromises {
  import opened BucketRuns
  import opened BucketWaits
  import opened Configs
  import opened Durations
  import opened TokenBuckets
  import Runs

  /** The wait told with a denial that leaves this bucket behind. */
  function Told(after: BucketState): int {
    Report(after, false).retryAfter
  }

  /** A client denied at `now` that comes back after the RetryAfter it was told is admitted. */
  predicate RetryEnough(after: BucketState, now: int) {
    Admits(after, now + Told(after))
  }

  /** The same for the whole seconds of the Retry-After header. */
  predicate HeaderEnough(after: BucketState, now: int) {
    Admits(after, now + HeaderSecondsCeil(Told(after)) * 1_000_000_000)
  }

  /** The time, in nanoseconds, in which a rate produces this many tokens. */
  function TimeFor(tokens: real, rate: real): real
    requires rate > 0.0
  {
    tokens * Period(rate)
  }

  lemma TimesAddUp(x: real, y: real, rate: real)
    requires rate > 0.0
    ensures TimeFor(x + y, rate) == TimeFor(x, rate) + TimeFor(y, rate)
    ensures TimeFor(x - y, rate) == TimeFor(x, rate) - TimeFor(y, rate)
  {
    var p := Period(rate);
    assert (x + y) * p == x * p + y * p && (x - y) * p == x * p - y * p;
  }

  lemma TimeForElapsed(d: int, rate: real)
    requires rate > 0.0
    ensures TimeFor(Seconds(d) * rate, rate) == d as real
  {
    var p, x := Period(rate), Seconds(d);
    PeriodIsPositive(rate);
    assert (x * rate) * p == x * (p * rate);
  }

  lemma WaitIsTime(s: BucketState, level: real)
    requires s.refillRate > 0.0
    ensures ExactWait(s, level) == TimeFor(level - s.tokens, s.refillRate)
  {
    var x := level - s.tokens;
    assert x / s.refillRate == x * (1.0 / s.refillRate);
  }

  /**
   A wait that is not a whole number of nanoseconds has a last nanosecond in which a client is denied
   and told to wait for nothing at all, in RetryAfter and in the header; and at once it is denied again.
   */
  lemma ToldToWaitForNothing(s: BucketState, now: int)
    requires s.refillRate > 0.0 && s.capacity >= 1.0
    requires !Whole(ExactWait(s, 1.0)) && now == s.lastRefill + ExactWait(s, 1.0).Floor
    ensures !Admits(s, now) && Told(Next(s, now)) == 0 && HeaderSecondsCeil(Told(Next(s, now))) == 0
    ensures !RetryEnough(Next(s, now), now) && !HeaderEnough(Next(s, now), now)
  {
    hide ExactWait, Told, Admits, Next;
    AdmittedFromReadyAt(s, now);
    ToldIsCut(s, now);
    NextKeepsParameters(s, now);
    DenialKeepsReadyAt(s, now);
    AdmittedFromReadyAt(Next(s, now), now);
  }

  lemma NextKeepsParameters(s: BucketState, now: int)
    ensures Next(s, now).refillRate == s.refillRate && Next(s, now).capacity == s.capacity
    ensures Next(s, now).lastRefill == now
  {
  }

  lemma ToldIsCut(s: BucketState, now: int)
    requires s.refillRate > 0.0 && s.capacity >= 1.0 && !Admits(s, now)
    ensures (now + Told(Next(s, now))) as real <= ReadyAt(s) < (now + Told(Next(s, now))) as real + 1.0
  {
    hide ReadyAt, Admits, Next, Report;
    RetryAfterIsCutWait(s, now);
  }

  /** An empty bucket does this under every rate whose period is not whole. */
  lemma EmptyBucketTellsNothing(capacity: real, rate: real, at: int)
    requires capacity >= 1.0 && rate > 0.0 && !Whole(Period(rate))
    ensures var s, now := BucketState(0.0, at, capacity, rate), at + Period(rate).Floor;
            && !Admits(s, now) && Told(Next(s, now)) == 0
            && !RetryEnough(Next(s, now), now) && !HeaderEnough(Next(s, now), now)
  {
    hide Period, Admits, Told, RetryEnough, HeaderEnough, ExactWait;
    var s := BucketState(0.0, at, capacity, rate);
    WaitIsTime(s, 1.0);
    ToldToWaitForNothing(s, at + Period(rate).Floor);
  }

  /** One token, and a whole bucket, take a whole number of nanoseconds. */
  predicate WholeWaits(capacity: real, rate: real)
    requires rate > 0.0
  {
    Whole(TimeFor(1.0, rate)) && Whole(TimeFor(capacity, rate))
  }

  /** What is in the bucket took a whole number of nanoseconds. */
  predicate Grained(s: BucketState)
    requires s.refillRate > 0.0
  {
    Whole(TimeFor(s.tokens, s.refillRate))
  }

  lemma SameIsWhole(x: real, y: real)
    requires Whole(x) && x == y
    ensures Whole(y)
  {
  }

  lemma RefillKeepsGrain(s: BucketState, now: int)
    requires s.refillRate > 0.0 && WholeWaits(s.capacity, s.refillRate) && Grained(s)
    ensures Whole(TimeFor(Refilled(s, now), s.refillRate))
  {
    hide Whole, TimeFor, Seconds;
    var d, rate := now - s.lastRefill, s.refillRate;
    var accrued := Seconds(d) * rate;
    TimesAddUp(s.tokens, accrued, rate);
    TimeForElapsed(d, rate);
    IntegerIsWhole(d, d as real);
    WholeSum(TimeFor(s.tokens, rate), d as real);
    SameIsWhole(TimeFor(s.tokens, rate) + d as real, TimeFor(s.tokens + accrued, rate));
    assert Refilled(s, now) == Min(s.capacity, s.tokens + accrued);
  }

  lemma NextKeepsGrain(s: BucketState, now: int)
    requires s.refillRate > 0.0 && WholeWaits(s.capacity, s.refillRate) && Grained(s)
    ensures Grained(Next(s, now))
  {
    hide Whole, TimeFor, Refilled;
    RefillKeepsGrain(s, now);
    if Admits(s, now) {
      TimesAddUp(Refilled(s, now), 1.0, s.refillRate);
      WholeSum(TimeFor(Refilled(s, now), s.refillRate), TimeFor(1.0, s.refillRate));
      SameIsWhole(TimeFor(Refilled(s, now), s.refillRate) - TimeFor(1.0, s.refillRate),
                  TimeFor(Next(s, now).tokens, s.refillRate));
    } else {
      SameIsWhole(TimeFor(Refilled(s, now), s.refillRate), TimeFor(Next(s, now).tokens, s.refillRate));
    }
  }

  lemma {:induction false} GrainAlong(s: BucketState, times: seq<int>, k: nat)
    requires s.refillRate > 0.0 && WholeWaits(s.capacity, s.refillRate) && Grained(s) && k <= |times|
    ensures StateAt(s, times, k).refillRate == s.refillRate && Grained(StateAt(s, times, k))
  {
    hide Next, Grained, WholeWaits;
    StateAtKeepsParameters(s, times, k);
    if k > 0 {
      StateAtKeepsParameters(s, times, k - 1);
      GrainAlong(s, times, k - 1);
      NextKeepsGrain(StateAt(s, times, k - 1), times[k - 1]);
    }
  }

  lemma WholeBetween(x: real, n: int)
    requires Whole(x) && n as real <= x < n as real + 1.0
    ensures x == n as real
  {
    SameInteger(x.Floor, n);
  }

  lemma SameInteger(m: int, n: int)
    requires n as real <= m as real < n as real + 1.0
    ensures m == n
  {
    assert n as real + 1.0 == (n + 1) as real;
  }

  lemma ReadyIsWhole(s: BucketState)
    requires s.refillRate > 0.0 && Whole(TimeFor(1.0, s.refillRate)) && Grained(s)
    ensures Whole(ReadyAt(s))
  {
    hide Whole, TimeFor, ExactWait;
    WaitIsTime(s, 1.0);
    TimesAddUp(1.0, s.tokens, s.refillRate);
    WholeSum(TimeFor(1.0, s.refillRate), TimeFor(s.tokens, s.refillRate));
    IntegerIsWhole(s.lastRefill, s.lastRefill as real);
    WholeSum(s.lastRefill as real, ExactWait(s, 1.0));
  }

  /** A denial whose wait is whole tells it exactly, and both ways of waiting are enough. */
  lemma WholeWaitIsEnough(s: BucketState, now: int)
    requires s.refillRate > 0.0 && s.capacity >= 1.0 && !Admits(s, now)
    requires Next(s, now).refillRate > 0.0 && Grained(Next(s, now)) && Whole(TimeFor(1.0, s.refillRate))
    ensures RetryEnough(Next(s, now), now) && HeaderEnough(Next(s, now), now)
  {
    hide TimeFor, Admits, Next, Whole, Told, ReadyAt, Grained, HeaderSecondsCeil;
    var after := Next(s, now);
    NextKeepsParameters(s, now);
    ReadyIsWhole(after);
    DenialKeepsReadyAt(s, now);
    ToldIsCut(s, now);
    WholeBetween(ReadyAt(s), now + Told(after));
    AdmittedFromReadyAt(after, now + Told(after));
    HeaderCeilBounds(Told(after));
    AdmittedFromReadyAt(after, now + HeaderSecondsCeil(Told(after)) * 1_000_000_000);
  }

  /** A call of a run that is denied. */
  predicate DeniedAt(s: BucketState, times: seq<int>, k: nat)
    requires k < |times|
  {
    !Decisions(s, times)[k]
  }

  predicate RetryEnoughAt(s: BucketState, times: seq<int>, k: nat)
    requires k < |times|
  {
    RetryEnough(StateAt(s, times, k + 1), times[k])
  }

  predicate HeaderEnoughAt(s: BucketState, times: seq<int>, k: nat)
    requires k < |times|
  {
    HeaderEnough(StateAt(s, times, k + 1), times[k])
  }

  /** In every run of a new bucket on an ordered clock, RetryAfter is enough at every denial. */
  ghost predicate RetryAlwaysEnough(capacity: real, rate: real, start: int) {
    forall times, k :: Nondecreasing([start] + times) && 0 <= k < |times| ==>
      DeniedAt(Fresh(capacity, rate, start), times, k) ==> RetryEnoughAt(Fresh(capacity, rate, start), times, k)
  }

  /** And so is the header. */
  ghost predicate HeaderAlwaysEnough(capacity: real, rate: real, start: int) {
    forall times, k :: Nondecreasing([start] + times) && 0 <= k < |times| ==>
      DeniedAt(Fresh(capacity, rate, start), times, k) ==> HeaderEnoughAt(Fresh(capacity, rate, start), times, k)
  }

  /** With whole waits both are enough, even on a clock that runs backwards. */
  lemma EnoughWithWholeWaits(capacity: real, rate: real, start: int, times: seq<int>, k: nat)
    requires capacity >= 1.0 && rate > 0.0 && WholeWaits(capacity, rate)
    requires k < |times| && DeniedAt(Fresh(capacity, rate, start), times, k)
    ensures RetryEnoughAt(Fresh(capacity, rate, start), times, k)
    ensures HeaderEnoughAt(Fresh(capacity, rate, start), times, k)
  {
    hide Next, Admits, TimeFor, Whole, RetryEnough, HeaderEnough;
    var s := Fresh(capacity, rate, start);
    StateAtKeepsParameters(s, times, k);
    GrainAlong(s, times, k);
    GrainAlong(s, times, k + 1);
    WholeWaitIsEnough(StateAt(s, times, k), times[k]);
  }

  /** The call after a run, on the state the run leaves. */
  lemma CallAfter(s: BucketState, times: seq<int>, t: int)
    ensures var all := times + [t];
            && (DeniedAt(s, all, |times|) <==> !Admits(StateAfter(s, times), t))
            && RetryEnoughAt(s, all, |times|) == RetryEnough(Next(StateAfter(s, times), t), t)
            && HeaderEnoughAt(s, all, |times|) == HeaderEnough(Next(StateAfter(s, times), t), t)
            && StateAfter(s, all) == Next(StateAfter(s, times), t)
  {
    hide Next, Admits, RetryEnough, HeaderEnough;
    assert (times + [t])[..|times|] == times[..|times|];
    Runs.DependsOnPrefix(Next, Admits, s, times + [t], times, |times|);
  }

  /** A run that ends with a client told to wait for nothing. */
  lemma BadEnding(s: BucketState, times: seq<int>) returns (t: int)
    requires s.refillRate > 0.0 && s.capacity >= 1.0
    requires StateAfter(s, times).refillRate == s.refillRate && StateAfter(s, times).capacity == s.capacity
    requires !Whole(ExactWait(StateAfter(s, times), 1.0)) && ExactWait(StateAfter(s, times), 1.0) >= 0.0
    ensures t >= StateAfter(s, times).lastRefill
    ensures var all := times + [t];
            DeniedAt(s, all, |times|) && !RetryEnoughAt(s, all, |times|) && !HeaderEnoughAt(s, all, |times|)
  {
    hide Next, Admits, RetryEnough, HeaderEnough, ExactWait, DeniedAt, RetryEnoughAt, HeaderEnoughAt, StateAfter, Whole;
    var b := StateAfter(s, times);
    t := b.lastRefill + ExactWait(b, 1.0).Floor;
    ToldToWaitForNothing(b, t);
    CallAfter(s, times, t);
  }

  /** A call at the instant a whole token is there, when that is a whole reading, empties the bucket. */
  lemma CallWhenReady(s: BucketState)
    requires s.refillRate > 0.0 && s.capacity >= 1.0 && Whole(ExactWait(s, 1.0))
    ensures Next(s, s.lastRefill + ExactWait(s, 1.0).Floor)
         == s.(tokens := 0.0, lastRefill := s.lastRefill + ExactWait(s, 1.0).Floor)
  {
    var d := ExactWait(s, 1.0).Floor;
    assert d as real == (1.0 - s.tokens) / s.refillRate * 1_000_000_000.0;
    assert Seconds(d) == (1.0 - s.tokens) / s.refillRate;
    assert Seconds(d) * s.refillRate == 1.0 - s.tokens;
    assert (s.lastRefill + d) - s.lastRefill == d;
    assert Refilled(s, s.lastRefill + d) == 1.0;
  }

  /** Without whole waits there is a run that ends so. */
  lemma FailingRun(capacity: real, rate: real, start: int) returns (times: seq<int>)
    requires capacity >= 1.0 && rate > 0.0 && !WholeWaits(capacity, rate)
    ensures times != [] && Nondecreasing([start] + times)
    ensures var s, k := Fresh(capacity, rate, start), |times| - 1;
            DeniedAt(s, times, k) && !RetryEnoughAt(s, times, k) && !HeaderEnoughAt(s, times, k)
  {
    hide Next, Admits, ExactWait, DeniedAt, RetryEnoughAt, HeaderEnoughAt, StateAt, Whole, TimeFor;
    var s, n := Fresh(capacity, rate, start), capacity.Floor;
    var burst := AtOnce(start, n);
    BurstLeavesRest(capacity, rate, start, n, n);
    var b := StateAfter(s, burst);
    WaitIsNonnegative(b);
    if !Whole(ExactWait(b, 1.0)) {
      var t := BadEnding(s, burst);
      times := burst + [t];
    } else {
      FractionIsWhole(capacity, rate, start, b);
      var ready := start + ExactWait(b, 1.0).Floor;
      CallWhenReady(b);
      CallAfter(s, burst, ready);
      var empty := BucketState(0.0, ready, capacity, rate);
      WaitIsTime(empty, 1.0);
      WaitIsNonnegative(empty);
      var t := BadEnding(s, burst + [ready]);
      times := burst + [ready] + [t];
    }
  }

  lemma WaitIsNonnegative(s: BucketState)
    requires s.refillRate > 0.0 && s.tokens <= 1.0
    ensures ExactWait(s, 1.0) >= 0.0
  {
    QuotientBound(0.0, 1.0 - s.tokens, s.refillRate);
  }

  /** If the fraction of a bucket waits a whole time, and not all waits are whole, one token's is not. */
  lemma FractionIsWhole(capacity: real, rate: real, start: int, b: BucketState)
    requires capacity >= 1.0 && rate > 0.0 && !WholeWaits(capacity, rate)
    requires b == BucketState(capacity - capacity.Floor as real, start, capacity, rate) && Whole(ExactWait(b, 1.0))
    ensures !Whole(TimeFor(1.0, rate))
  {
    hide ExactWait, Whole, TimeFor;
    if Whole(TimeFor(1.0, rate)) {
      var n := capacity.Floor;
      WaitIsTime(b, 1.0);
      TimeForWhole(n + 1, rate);
      TimesAddUp((n + 1) as real, 1.0 - b.tokens, rate);
      assert (n + 1) as real - (1.0 - b.tokens) == capacity;
      assert TimeFor((n + 1) as real - (1.0 - b.tokens), rate) == TimeFor(capacity, rate);
      assert TimeFor(1.0 - b.tokens, rate) == ExactWait(b, 1.0);
      WholeSum(TimeFor((n + 1) as real, rate), TimeFor(1.0 - b.tokens, rate));
      assert false;
    }
  }

  lemma TimeForWhole(n: int, rate: real)
    requires rate > 0.0 && Whole(TimeFor(1.0, rate))
    ensures Whole(TimeFor(n as real, rate))
  {
    hide Period;
    var p := Period(rate);
    SameIsWhole(TimeFor(1.0, rate), p);
    var m := p.Floor;
    assert n as real * m as real == (n * m) as real;
    IntegerIsWhole(n * m, TimeFor(n as real, rate));
  }

  /**
   Exactly when the waits told are always enough. For a new bucket, at every denial of every run on an
   ordered clock, coming back after RetryAfter is enough if and only if one token and the whole bucket
   take a whole number of nanoseconds; and so it is with the whole seconds of the header.
   */
  lemma WaitsEnoughExactly(capacity: real, rate: real, start: int)
    requires capacity >= 1.0 && rate > 0.0
    ensures RetryAlwaysEnough(capacity, rate, start) <==> WholeWaits(capacity, rate)
    ensures HeaderAlwaysEnough(capacity, rate, start) <==> WholeWaits(capacity, rate)
  {
    hide DeniedAt, RetryEnoughAt, HeaderEnoughAt, WholeWaits, Nondecreasing, Fresh;
    if WholeWaits(capacity, rate) {
      forall times, k | Nondecreasing([start] + times) && 0 <= k < |times|
                        && DeniedAt(Fresh(capacity, rate, start), times, k)
        ensures RetryEnoughAt(Fresh(capacity, rate, start), times, k)
        ensures HeaderEnoughAt(Fresh(capacity, rate, start), times, k)
      {
        EnoughWithWholeWaits(capacity, rate, start, times, k);
      }
    } else {
      var times := FailingRun(capacity, rate, start);
      assert DeniedAt(Fresh(capacity, rate, start), times, |times| - 1);
    }
  }

  /** For a whole burst the condition is on the rate alone. */
  lemma WholeBurstWaits(n: nat, rate: real)
    requires n >= 1 && rate > 0.0
    ensures WholeWaits(n as real, rate) <==> Whole(Period(rate))
  {
    hide Whole, Period;
    assert TimeFor(1.0, rate) == Period(rate);
    if Whole(Period(rate)) {
      hide TimeFor;
      TimeForWhole(n, rate);
    }
  }
}
