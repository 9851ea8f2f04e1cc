/** What a configuration buys a client: the window it is given, its rate, and its first request. */
module ConfiguredLimits {
  import opened Configs
  import opened Durations
  import opened Limiters
  import opened Logs
  import BucketRuns
  import BucketWaits
  import SlidingWindows
  import TokenBuckets
  import WindowEstimates
  import WindowRuns

  /** The window is burst / rps, cut to whole nanoseconds. */
  lemma WindowIsCut(cfg: Config)
    requires Valid(cfg)
    ensures WindowFor(cfg) >= 0
    ensures WindowFor(cfg) as real * cfg.rps <= cfg.burst * 1_000_000_000.0 < (WindowFor(cfg) as real + 1.0) * cfg.rps
  {
    var q := cfg.burst / cfg.rps;
    assert q * cfg.rps == cfg.burst;
    if q < 0.0 {
      ScaleOrder(cfg.rps, q, 0.0);
    }
    CutQuotient(cfg.burst, cfg.rps, q, WindowFor(cfg));
  }

  lemma CutQuotient(burst: real, rps: real, q: real, w: int)
    requires rps > 0.0 && q * rps == burst && q >= 0.0 && w == (q * 1_000_000_000.0).Floor
    ensures w as real * rps <= burst * 1_000_000_000.0 < (w as real + 1.0) * rps
  {
    var exact := q * 1_000_000_000.0;
    assert exact * rps == burst * 1_000_000_000.0;
    ScaledCut(w as real, exact, w as real + 1.0, rps, burst * 1_000_000_000.0);
  }

  lemma ScaledCut(w: real, exact: real, next: real, rps: real, product: real)
    requires rps > 0.0 && w <= exact < next && exact * rps == product
    ensures w * rps <= product < next * rps
  {
    ScaleOrder(rps, w, exact);
    StrictScaleOrder(rps, exact, next);
  }

  /** A count within so many windows, told by the rate. */
  lemma RateOfWindows(n: real, p: real, m: real, w: real, d: real, rps: real, exact: real)
    requires n >= 0.0 && p > 0.0 && rps > 0.0 && w >= 0.0
    requires n <= p * (m + 1.0) && m * w < d + w
    requires w * rps <= exact < (w + 1.0) * rps
    ensures n * (exact - rps) < p * (rps * d + 2.0 * exact)
  {
    ScaleOrder(w, n, p * (m + 1.0));
    assert w * (p * (m + 1.0)) == p * (m * w + w);
    assert p * ((d + w) - m * w) > 0.0;
    assert n * w < p * (d + 2.0 * w);
    var x, y := n * w, p * (d + 2.0 * w);
    assert (y - x) * rps > 0.0;
    assert x * rps == n * (w * rps);
    assert y * rps == p * (rps * d + 2.0 * (w * rps));
    ScaleOrder(n, exact - rps, w * rps);
    ScaleOrder(p, rps * d + 2.0 * (w * rps), rps * d + 2.0 * exact);
  }

  /**
   The rate of every sliding window that is built for a valid configuration, cut as it is: in every
   closed interval of T nanoseconds of every run, n admissions satisfy
   n * (burst * 10^9 - rps) < ceil(burst) * (rps * T + 2 * burst * 10^9).
   */
  lemma ConfiguredWindowRate(cfg: Config, created: int, calls: seq<int>, lo: int, hi: int)
    requires Valid(cfg) && cfg.algorithm == ALGORITHM_SLIDING_WINDOW && WindowFor(cfg) >= 1
    requires Nondecreasing([created] + calls) && lo <= hi
    ensures CountIn(RunLog(NewLimiter(cfg, created), calls), lo, hi + 1) as real
              * (cfg.burst * 1_000_000_000.0 - cfg.rps)
          < WindowRuns.PerWindow(cfg.burst) as real
              * (cfg.rps * (hi - lo) as real + 2.0 * (cfg.burst * 1_000_000_000.0))
  {
    hide RunLog, CountIn, WindowRuns.PerWindow, WindowRuns.WindowsFor, WindowFor;
    var w, m := WindowFor(cfg), WindowRuns.WindowsFor(hi - lo, WindowFor(cfg));
    var n, p := CountIn(RunLog(NewLimiter(cfg, created), calls), lo, hi + 1), WindowRuns.PerWindow(cfg.burst);
    NewWindowRate(cfg, created, calls, lo, hi);
    WindowRuns.WindowsForIsCeil(hi - lo, w);
    WindowIsCut(cfg);
    BurstIsPositive(cfg.burst);
    RateOfWindows(n as real, p as real, m as real, w as real, (hi - lo) as real, cfg.rps, cfg.burst * 1_000_000_000.0);
  }

  lemma BurstIsPositive(burst: real)
    requires burst >= 1.0
    ensures WindowRuns.PerWindow(burst) >= 1
  {
    CeilBounds(burst);
  }

  lemma TwoWindows(cfg: Config, d: int)
    requires Valid(cfg) && d as real * cfg.rps >= 2.0 * (cfg.burst * 1_000_000_000.0)
    ensures d >= 2 * WindowFor(cfg)
  {
    WindowIsCut(cfg);
    var w := WindowFor(cfg) as real;
    if (d as real) < 2.0 * w {
      assert (2.0 * w - d as real) * cfg.rps > 0.0;
    }
  }

  /**
   The other side: whatever a sliding-window client has spent, once it is only denied it is served again
   after two exact windows of burst / rps at the latest.
   */
  lemma ServedAgain(cfg: Config, s: SlidingWindows.WindowState, now: int, times: seq<int>, later: int)
    requires Valid(cfg) && WindowFor(cfg) >= 1 && BuiltFor(Window(s), cfg)
    requires WindowEstimates.Started(s, now)
    requires WindowEstimates.DeniedMeanwhile(SlidingWindows.Next(s, now), now, times, later)
    requires now <= later && (later - now) as real * cfg.rps >= 2.0 * (cfg.burst * 1_000_000_000.0)
    ensures SlidingWindows.Admits(WindowRuns.StateAfter(SlidingWindows.Next(s, now), times), later)
  {
    hide WindowFor;
    var after := SlidingWindows.Next(s, now);
    TwoWindows(cfg, later - now);
    WindowHolds(s, now);
    WindowEstimates.AdmittedOnEstimate(after, now, times, later);
    WindowEstimates.EstimatePieces(after, later);
  }

  lemma WindowHolds(s: SlidingWindows.WindowState, now: int)
    requires WindowEstimates.Started(s, now)
    ensures var after := SlidingWindows.Next(s, now);
            after.windowStart <= now && after.window == s.window && after.limit == s.limit
  {
  }

  /** The first request of a client is admitted and told what is left of its burst. */
  lemma FirstRequest(cfg: Config, now: int)
    requires Valid(cfg) && (cfg.algorithm == ALGORITHM_SLIDING_WINDOW ==> WindowFor(cfg) >= 1)
    ensures var d := Decide(NewLimiter(cfg, now), now);
            && d.allowed && d.limit == cfg.burst && d.remaining == (cfg.burst - 1.0).Floor && d.retryAfter == 0
            && d.resetAfter
               == if cfg.algorithm == ALGORITHM_SLIDING_WINDOW then WindowFor(cfg) else Period(cfg.rps).Floor
  {
    hide WindowFor, Period;
    if cfg.algorithm == ALGORITHM_SLIDING_WINDOW {
      FirstOfWindow(cfg.burst, WindowFor(cfg), now);
    } else {
      FirstOfBucket(cfg.burst, cfg.rps, now);
    }
  }

  lemma FirstOfWindow(limit: real, w: int, now: int)
    requires limit >= 1.0 && w >= 1
    ensures var d := SlidingWindows.Report(SlidingWindows.Fresh(limit, w, now), now);
            d.allowed && d.limit == limit && d.remaining == (limit - 1.0).Floor
            && d.retryAfter == 0 && d.resetAfter == w
  {
    assert SlidingWindows.Estimate(SlidingWindows.Fresh(limit, w, now), now) == 0.0;
  }

  lemma FirstOfBucket(capacity: real, rate: real, now: int)
    requires capacity >= 1.0 && rate > 0.0
    ensures var b := TokenBuckets.Fresh(capacity, rate, now);
            var d := TokenBuckets.Report(TokenBuckets.Next(b, now), TokenBuckets.Admits(b, now));
            && d.allowed && d.limit == capacity && d.remaining == (capacity - 1.0).Floor && d.retryAfter == 0
            && d.resetAfter == Period(rate).Floor
  {
    var b := TokenBuckets.Fresh(capacity, rate, now);
    assert Seconds(now - now) * rate == 0.0;
    assert TokenBuckets.Next(b, now).tokens == capacity - 1.0;
    assert (capacity - (capacity - 1.0)) / rate == 1.0 / rate;
    PeriodIsPositive(rate);
  }

  /**
   A client nobody has configured: a valid token-bucket configuration of five requests at once, and
   one more for every second.
   */
  lemma DefaultLimits(now: int, n: nat, later: int)
    ensures Valid(DEFAULT_CONFIG) && DEFAULT_CONFIG.algorithm == ALGORITHM_TOKEN_BUCKET
    ensures RunAdmitted(NewLimiter(DEFAULT_CONFIG, now), AtOnce(now, n)) == Fewer(n, 5)
    ensures now <= later ==>
              (Limiters.Admits(RunValue(NewLimiter(DEFAULT_CONFIG, now), AtOnce(now, 5)), later)
               <==> later - now >= 1_000_000_000)
  {
    NewLimiterBurst(DEFAULT_CONFIG, now, n);
    SpentDefault(now);
    EmptyDefault(now, later);
  }

  lemma SpentDefault(now: int)
    ensures RunValue(NewLimiter(DEFAULT_CONFIG, now), AtOnce(now, 5))
         == Bucket(TokenBuckets.BucketState(0.0, now, 5.0, 1.0))
  {
    hide RunValue;
    RunIsBucketRun(TokenBuckets.Fresh(5.0, 1.0, now), AtOnce(now, 5));
    BucketWaits.BurstLeavesRest(5.0, 1.0, now, 5, 5);
  }

  lemma EmptyDefault(now: int, later: int)
    ensures TokenBuckets.Admits(TokenBuckets.BucketState(0.0, now, 5.0, 1.0), later) <==> later - now >= 1_000_000_000
  {
    assert Seconds(later - now) * 1.0 == (later - now) as real / 1_000_000_000.0;
  }
}
