/** The limiters a manager chooses between, their persisted form, and how one is built. */
module Limiters {
  import opened Configs
  import opened Durations
  import opened Logs
  import opened Wrappers
  import TokenBuckets
  import SlidingWindows
  import BucketRuns
  import BucketWaits
  import WindowEstimates
  import Runs
  import WindowRuns

  /** The contents of a live limiter of either algorithm. */
  datatype LimiterValue =
    | Bucket(bucket: TokenBuckets.BucketState)
    | Window(window: SlidingWindows.WindowState)

  /** The persisted form: a tag, and one populated field that should match it. */
  datatype LimiterState = LimiterState(
    algorithm: string,
    tokenBucket: Option<TokenBuckets.BucketState>,
    slidingWindow: Option<SlidingWindows.WindowState>)

  datatype PersistedState = PersistedState(configs: map<string, Config>, limiters: map<string, LimiterState>)

  /**
   The window that makes `burst` requests per window come to `rps` requests per second. The code's
   conversion of an infinite quotient is left to the platform; 0 stands for it here.
   */
  function WindowFor(cfg: Config): int {
    if cfg.rps == 0.0 then 0 else FromSeconds(cfg.burst / cfg.rps)
  }

  /** The limiter built for a configuration at clock reading `now`. */
  function NewLimiter(cfg: Config, now: int): LimiterValue {
    if cfg.algorithm == ALGORITHM_SLIDING_WINDOW then
      Window(SlidingWindows.Fresh(cfg.burst, WindowFor(cfg), now))
    else
      Bucket(TokenBuckets.Fresh(cfg.burst, cfg.rps, now))
  }

  predicate Admits(l: LimiterValue, now: int) {
    match l
    case Bucket(b) => TokenBuckets.Admits(b, now)
    case Window(w) => SlidingWindows.Admits(w, now)
  }

  /** The limiter a call at `now` leaves behind. */
  function Next(l: LimiterValue, now: int): LimiterValue {
    match l
    case Bucket(b) => Bucket(TokenBuckets.Next(b, now))
    case Window(w) => Window(SlidingWindows.Next(w, now))
  }

  /** The decision a call at `now` reports. */
  function Decide(l: LimiterValue, now: int): Decision {
    match l
    case Bucket(b) => TokenBuckets.Report(TokenBuckets.Next(b, now), TokenBuckets.Admits(b, now))
    case Window(w) => SlidingWindows.Report(w, now)
  }

  lemma DecisionIsAdmission(l: LimiterValue, now: int)
    ensures Decide(l, now).allowed == Admits(l, now)
  {
  }

  /** The persisted form of a live limiter. */
  function Save(l: LimiterValue): LimiterState {
    match l
    case Bucket(b) => LimiterState(ALGORITHM_TOKEN_BUCKET, Some(b), None)
    case Window(w) => LimiterState(ALGORITHM_SLIDING_WINDOW, None, Some(w))
  }

  /** The limiter a persisted form stands for, if its tag and its fields agree. */
  function Load(s: LimiterState): Option<LimiterValue> {
    if s.algorithm == ALGORITHM_SLIDING_WINDOW && s.slidingWindow.Some? then
      Some(Window(s.slidingWindow.value))
    else if s.algorithm == ALGORITHM_TOKEN_BUCKET && s.tokenBucket.Some? then
      Some(Bucket(s.tokenBucket.value))
    else
      None
  }

  /** A persisted form brings back a limiter exactly when its tag and the field for it agree. */
  lemma LoadExactly(s: LimiterState, l: LimiterValue)
    ensures Load(s) == Some(l) <==>
              && s.algorithm == Save(l).algorithm
              && match l
                 case Bucket(b) => s.tokenBucket == Some(b)
                 case Window(w) => s.slidingWindow == Some(w)
    ensures Load(Save(l)) == Some(l)
  {
  }

  /** A limiter of the type and with the parameters that NewLimiter gives for cfg. */
  ghost predicate BuiltFor(l: LimiterValue, cfg: Config) {
    match l
    case Bucket(b) =>
      cfg.algorithm != ALGORITHM_SLIDING_WINDOW && b.capacity == cfg.burst && b.refillRate == cfg.rps
    case Window(w) =>
      cfg.algorithm == ALGORITHM_SLIDING_WINDOW && w.limit == cfg.burst && w.window == WindowFor(cfg)
  }

  lemma NewLimiterFits(cfg: Config, now: int)
    ensures BuiltFor(NewLimiter(cfg, now), cfg)
  {
  }

  /** Calls never change a limiter's type or parameters. */
  lemma NextStaysBuiltFor(l: LimiterValue, now: int, cfg: Config)
    requires BuiltFor(l, cfg)
    ensures BuiltFor(Next(l, now), cfg)
  {
  }

  /** What a caller can rely on in every decision, of either algorithm. */
  lemma DecisionFields(l: LimiterValue, cfg: Config, now: int)
    requires BuiltFor(l, cfg)
    ensures var d := Decide(l, now);
            && d.limit == cfg.burst
            && (d.allowed ==> d.retryAfter == 0)
            && (!d.allowed ==> d.remaining <= 0)
  {
    match l {
      case Bucket(b) =>
        assert !TokenBuckets.Admits(b, now) ==> TokenBuckets.Next(b, now).tokens < 1.0;
      case Window(w) =>
        assert !SlidingWindows.Admits(w, now) && w.window != 0 ==> SlidingWindows.Estimate(w, now) >= w.limit;
    }
  }

  /** The limiter after a run of calls. */
  function RunValue(l: LimiterValue, times: seq<int>): LimiterValue {
    Runs.StateAfter(Next, l, times)
  }

  /** The readings of the calls of a run that a limiter admits. */
  function RunLog(l: LimiterValue, times: seq<int>): seq<int> {
    Runs.LogAfter(Next, Admits, l, times)
  }

  /** The number of calls of a run that a limiter admits. */
  function RunAdmitted(l: LimiterValue, times: seq<int>): nat {
    |RunLog(l, times)|
  }

  /**
   The reset time a bucket's decision reports is honest, at every call from whatever state: the bucket
   the call leaves is full exactly from its exact reset instant on, which is at or after the reported one
   and less than a nanosecond later; and the header is that time in whole seconds.
   */
  lemma BucketResetIsHonest(b: TokenBuckets.BucketState, now: int, later: int)
    requires b.capacity >= 1.0 && b.refillRate > 0.0
    ensures var after, d := TokenBuckets.Next(b, now), Decide(Bucket(b), now);
            var exact := BucketWaits.ExactWait(after, b.capacity);
            && (TokenBuckets.Refilled(after, later) == b.capacity <==> later as real >= now as real + exact)
            && d.resetAfter as real <= exact < d.resetAfter as real + 1.0
            && HeaderSeconds(d.resetAfter) == (exact / 1_000_000_000.0).Floor
  {
    hide BucketWaits.ExactWait, HeaderSeconds, TokenBuckets.RetryAfter;
    var after := TokenBuckets.Next(b, now);
    CallLeavesRoom(b, now);
    hide TokenBuckets.Next, TokenBuckets.ResetAfter;
    BucketWaits.ResetAfterIsCutWait(after, later);
    BucketWaits.ResetHeaderIsWholeSeconds(after);
  }

  /**
   The rest of a bucket's decision is honest as well: it is allowed exactly when a token is there, a
   denied caller is told the exact wait cut to nanoseconds, and exactly Remaining further calls are
   admitted at the same instant.
   */
  lemma BucketDecisionIsHonest(b: TokenBuckets.BucketState, now: int, n: nat)
    requires b.capacity >= 1.0 && b.refillRate > 0.0
    ensures var after, d := TokenBuckets.Next(b, now), Decide(Bucket(b), now);
            && (d.allowed <==> now as real >= BucketWaits.ReadyAt(b))
            && (d.allowed ==> d.retryAfter == 0)
            && (!d.allowed ==>
                  (now + d.retryAfter) as real <= BucketWaits.ReadyAt(b) < (now + d.retryAfter) as real + 1.0)
            && (after.tokens >= 0.0 ==> BucketRuns.Admitted(after, AtOnce(now, n)) == Fewer(n, d.remaining))
  {
    hide BucketWaits.ReadyAt, BucketRuns.Admitted;
    hide TokenBuckets.Admits, TokenBuckets.ResetAfter, TokenBuckets.RetryAfter;
    var after := TokenBuckets.Next(b, now);
    BucketWaits.AdmittedFromReadyAt(b, now);
    AllowedTellsNothing(b, now);
    if !TokenBuckets.Admits(b, now) {
      BucketWaits.RetryAfterIsCutWait(b, now);
    }
    if after.tokens >= 0.0 {
      CallLeavesRoom(b, now);
      FoundAgain(after, now);
      BucketWaits.AdmittedAtOnce(after, now, n);
    }
  }

  lemma AllowedTellsNothing(b: TokenBuckets.BucketState, now: int)
    ensures TokenBuckets.Admits(b, now) ==> Decide(Bucket(b), now).retryAfter == 0
  {
  }

  lemma FoundAgain(b: TokenBuckets.BucketState, now: int)
    requires b.lastRefill == now && b.tokens <= b.capacity
    ensures TokenBuckets.Refilled(b, now) == b.tokens
  {
    assert Seconds(now - b.lastRefill) == 0.0;
  }

  /**
   What a window's decision reports: the end of the window the call lies in as reset time, and as retry
   time when it is denied; and as Remaining what the limit leaves once the call is counted, rounded down.
   */
  lemma WindowDecisionIsHonest(w: SlidingWindows.WindowState, now: int)
    requires w.window >= 1
    ensures var after, d := SlidingWindows.Next(w, now), Decide(Window(w), now);
            var left := w.limit - SlidingWindows.Estimate(after, now);
            && (d.allowed <==> SlidingWindows.Estimate(w, now) < w.limit)
            && now + d.resetAfter == after.windowStart + after.window
            && d.retryAfter == (if d.allowed then 0 else d.resetAfter)
            && (left >= 0.0 ==> d.remaining as real <= left < d.remaining as real + 1.0)
            && (left < 0.0 ==> d.remaining == 0)
  {
    hide SlidingWindows.Estimate, SlidingWindows.Next, SlidingWindows.Report;
    WindowEstimates.ReportedFields(w, now);
  }

  lemma CallLeavesRoom(b: TokenBuckets.BucketState, now: int)
    requires b.capacity >= 1.0
    ensures var after := TokenBuckets.Next(b, now);
            && after.tokens < after.capacity == b.capacity && after.refillRate == b.refillRate
            && after.lastRefill == now
  {
    hide TokenBuckets.Refilled;
    assert TokenBuckets.Refilled(b, now) <= b.capacity by {
      RefillIsCapped(b, now);
    }
  }

  lemma RefillIsCapped(b: TokenBuckets.BucketState, now: int)
    ensures TokenBuckets.Refilled(b, now) <= b.capacity
  {
  }

  /** Two runs in a row. */
  lemma RunsJoin(l: LimiterValue, a: seq<int>, b: seq<int>)
    ensures RunValue(l, a + b) == RunValue(RunValue(l, a), b)
    ensures RunLog(l, a + b) == RunLog(l, a) + RunLog(RunValue(l, a), b)
  {
    Runs.Join(Next, Admits, l, a, b);
  }

  /** One more call at the front of a run. */
  lemma OneEarlierCall(l: LimiterValue, t: int, times: seq<int>)
    ensures RunValue(l, [t] + times) == RunValue(Next(l, t), times)
    ensures RunLog(l, [t] + times) == (if Admits(l, t) then [t] else []) + RunLog(Next(l, t), times)
  {
    Runs.Join(Next, Admits, l, [t], times);
    Runs.OneCall(Next, Admits, l, t);
  }

  lemma {:induction false} BucketRunAt(b: TokenBuckets.BucketState, times: seq<int>, k: nat)
    requires k <= |times|
    ensures Runs.StateAt(Next, Bucket(b), times, k) == Bucket(BucketRuns.StateAt(b, times, k))
    ensures Runs.LogAt(Next, Admits, Bucket(b), times, k) == BucketRuns.LogAt(b, times, k)
  {
    hide TokenBuckets.Next, TokenBuckets.Admits;
    if k > 0 {
      BucketRunAt(b, times, k - 1);
    }
  }

  /** A limiter of either kind runs as the theory of its kind says. */
  lemma RunIsBucketRun(b: TokenBuckets.BucketState, times: seq<int>)
    ensures RunValue(Bucket(b), times) == Bucket(BucketRuns.StateAfter(b, times))
    ensures RunLog(Bucket(b), times) == BucketRuns.LogAt(b, times, |times|)
    ensures RunAdmitted(Bucket(b), times) == BucketRuns.Admitted(b, times)
  {
    BucketRunAt(b, times, |times|);
    Runs.LogIsAdmitted(TokenBuckets.Next, TokenBuckets.Admits, b, times, |times|);
  }

  lemma {:induction false} WindowRunAt(w: SlidingWindows.WindowState, times: seq<int>, k: nat)
    requires k <= |times|
    ensures Runs.StateAt(Next, Window(w), times, k) == Window(WindowRuns.StateAt(w, times, k))
    ensures Runs.LogAt(Next, Admits, Window(w), times, k) == WindowRuns.LogAt(w, times, k)
  {
    hide SlidingWindows.Next, SlidingWindows.Admits;
    if k > 0 {
      WindowRunAt(w, times, k - 1);
    }
  }

  lemma RunIsWindowRun(w: SlidingWindows.WindowState, times: seq<int>)
    ensures RunValue(Window(w), times) == Window(WindowRuns.StateAfter(w, times))
    ensures RunLog(Window(w), times) == WindowRuns.LogAt(w, times, |times|)
    ensures RunAdmitted(Window(w), times) == WindowRuns.Admitted(w, times)
  {
    WindowRunAt(w, times, |times|);
    Runs.LogIsAdmitted(SlidingWindows.Next, SlidingWindows.Admits, w, times, |times|);
  }

  /** The rate of a token bucket, whatever it held before. */
  lemma BucketRate(b: TokenBuckets.BucketState, times: seq<int>, lo: int, hi: int)
    requires Nondecreasing(times) && b.capacity >= 0.0 && b.refillRate >= 0.0 && lo <= hi
    ensures CountIn(RunLog(Bucket(b), times), lo, hi + 1) as real <= b.capacity + b.refillRate * Seconds(hi - lo)
  {
    hide RunLog, Seconds, CountIn;
    RunIsBucketRun(b, times);
    BucketRuns.AdmittedBetween(b, times, |times|, lo, hi);
  }

  /** The rate of a sliding window, from any point of its life. */
  lemma WindowRate(w: SlidingWindows.WindowState, prior: seq<int>, times: seq<int>, lo: int, hi: int)
    requires WindowRuns.FreshRun(w, prior + times) && lo <= hi
    ensures CountIn(RunLog(RunValue(Window(w), prior), times), lo, hi + 1)
         <= WindowRuns.PerWindow(w.limit) * (WindowRuns.WindowsFor(hi - lo, w.window) + 1)
  {
    hide RunLog, RunValue, CountIn, WindowRuns.PerWindow, WindowRuns.WindowsFor;
    RunIsWindowRun(w, prior + times);
    RunsJoin(Window(w), prior, times);
    CountInJoins(RunLog(Window(w), prior), RunLog(RunValue(Window(w), prior), times), lo, hi + 1);
    WindowRuns.LongRunBound(w, prior + times, |prior + times|, lo, hi);
  }

  lemma NoCalls(l: LimiterValue)
    ensures RunValue(l, []) == l && RunLog(l, []) == []
  {
  }

  /** The rate of a new sliding window. */
  lemma NewWindowRate(cfg: Config, created: int, calls: seq<int>, lo: int, hi: int)
    requires cfg.algorithm == ALGORITHM_SLIDING_WINDOW && WindowFor(cfg) >= 1
    requires Nondecreasing([created] + calls) && lo <= hi
    ensures CountIn(RunLog(NewLimiter(cfg, created), calls), lo, hi + 1)
         <= WindowRuns.PerWindow(cfg.burst) * (WindowRuns.WindowsFor(hi - lo, WindowFor(cfg)) + 1)
  {
    hide RunLog, CountIn, WindowRuns.PerWindow, WindowRuns.WindowsFor, WindowFor;
    var w := SlidingWindows.Fresh(cfg.burst, WindowFor(cfg), created);
    NoCalls(Window(w));
    assert [] + calls == calls;
    WindowRate(w, [], calls, lo, hi);
  }

  /** The burst a new limiter admits at one instant. */
  function BurstOf(cfg: Config): int {
    if cfg.algorithm == ALGORITHM_SLIDING_WINDOW then Ceil(cfg.burst) else cfg.burst.Floor
  }

  lemma NewBucketBurst(b: TokenBuckets.BucketState, n: nat)
    requires b.tokens == b.capacity >= 0.0
    ensures BucketRuns.Admitted(b, AtOnce(b.lastRefill, n)) == Fewer(n, b.capacity.Floor)
  {
    hide BucketRuns.Admitted;
    assert Seconds(b.lastRefill - b.lastRefill) == 0.0;
    BucketWaits.AdmittedAtOnce(b, b.lastRefill, n);
  }

  lemma NewWindowBurst(limit: real, window: int, now: int, n: nat)
    requires window >= 1 && limit >= 0.0
    ensures WindowRuns.Admitted(SlidingWindows.Fresh(limit, window, now), AtOnce(now, n)) == Fewer(n, Ceil(limit))
  {
    hide WindowRuns.Admitted;
    CeilBounds(limit);
    WindowRuns.FreshBurst(limit, window, now, n);
  }

  /** n calls at the instant of its making get exactly that burst. */
  lemma NewLimiterBurst(cfg: Config, now: int, n: nat)
    requires Valid(cfg) && (cfg.algorithm == ALGORITHM_SLIDING_WINDOW ==> WindowFor(cfg) >= 1)
    ensures RunAdmitted(NewLimiter(cfg, now), AtOnce(now, n)) == Fewer(n, BurstOf(cfg))
  {
    hide RunAdmitted, WindowFor, BucketRuns.Admitted, WindowRuns.Admitted;
    match NewLimiter(cfg, now) {
      case Bucket(b) =>
        RunIsBucketRun(b, AtOnce(now, n));
        NewBucketBurst(b, n);
      case Window(w) =>
        RunIsWindowRun(w, AtOnce(now, n));
        NewWindowBurst(cfg.burst, WindowFor(cfg), now, n);
    }
  }

  /**
   The rate a sliding window is configured for: with an exact window and a whole burst, a closed
   interval of T nanoseconds admits fewer than rps * T + 2 * burst requests.
   */
  lemma ConfiguredRateBound(cfg: Config, s: SlidingWindows.WindowState, times: seq<int>, k: nat, a: int, b: int)
    requires Valid(cfg) && cfg.burst == cfg.burst.Floor as real
    requires NewLimiter(cfg, s.windowStart) == Window(s)
    requires s.window as real == cfg.burst / cfg.rps * 1_000_000_000.0
    requires WindowRuns.FreshRun(s, times) && k <= |times| && a <= b
    ensures CountIn(WindowRuns.LogAt(s, times, k), a, b + 1) as real
         < cfg.rps * Seconds(b - a) + 2.0 * cfg.burst
  {
    hide WindowRuns.WindowsFor, WindowRuns.Budget, WindowRuns.LogAt, CountIn;
    var m := WindowRuns.WindowsFor(b - a, s.window);
    var admitted := CountIn(WindowRuns.LogAt(s, times, k), a, b + 1);
    assert admitted <= WindowRuns.Budget(s.limit, m + 1) by {
      WindowRuns.LongRunBudget(s, times, k, a, b);
    }
    WholeBudget(cfg, m, s.window, b - a);
  }

  lemma WholeBudget(cfg: Config, m: nat, w: int, d: int)
    requires Valid(cfg) && cfg.burst == cfg.burst.Floor as real && w >= 1 && d >= 0
    requires w as real == cfg.burst / cfg.rps * 1_000_000_000.0
    requires m == WindowRuns.WindowsFor(d, w)
    ensures WindowRuns.Budget(cfg.burst, m + 1) as real < cfg.rps * Seconds(d) + 2.0 * cfg.burst
  {
    hide WindowRuns.Budget, WindowRuns.WindowsFor;
    WindowRuns.BudgetAsReal(cfg.burst, cfg.burst.Floor, m + 1);
    WindowRuns.WindowsForIsCeil(d, w);
    WindowsCost(cfg.burst, m as real, w as real, d as real, cfg.rps);
  }

  lemma WindowsCost(burst: real, m: real, w: real, d: real, rps: real)
    requires burst > 0.0 && rps > 0.0 && w == burst / rps * 1_000_000_000.0 && m * w < d + w
    ensures burst * (m + 1.0) < rps * (d / 1_000_000_000.0) + 2.0 * burst
  {
    var perNs := rps / 1_000_000_000.0;
    assert burst / rps * rps == burst;
    assert w * perNs == burst;
    assert (m * w) * perNs < (d + w) * perNs;
    assert (m * w) * perNs == m * (w * perNs);
    assert (d + w) * perNs == d * perNs + burst;
    assert d * perNs == rps * (d / 1_000_000_000.0);
  }

  /**
   A valid configuration can deny everything: when the window is cut to zero nanoseconds, a client
   that asked for more than burst * 10^9 requests a second gets none, and otherwise it gets in.
   */
  lemma SlidingClientServedExactlyWithNonzeroWindow(cfg: Config, created: int, now: int)
    requires Valid(cfg) && cfg.algorithm == ALGORITHM_SLIDING_WINDOW && created <= now
    ensures Admits(NewLimiter(cfg, created), now) <==> cfg.rps <= cfg.burst * 1_000_000_000.0
  {
    var w := WindowFor(cfg);
    var q := cfg.burst / cfg.rps;
    assert q * cfg.rps == cfg.burst && q > 0.0;
    if cfg.rps <= cfg.burst * 1_000_000_000.0 {
      assert (q * 1_000_000_000.0) * cfg.rps >= cfg.rps;
      assert q * 1_000_000_000.0 >= 1.0;
      assert w >= 1;
      var r := SlidingWindows.Rolled(NewLimiter(cfg, created).window, now);
      assert r.previousCount == 0.0 && r.currentCount == 0.0;
    } else {
      assert (q * 1_000_000_000.0) * cfg.rps < cfg.rps;
      assert q * 1_000_000_000.0 < 1.0;
      assert w == 0;
    }
  }
}
