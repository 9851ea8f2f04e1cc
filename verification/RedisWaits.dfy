/** The waits a Redis client is told, against the exact ones. */
module RedisWaits {
  import opened Configs
  import opened Durations
  import opened RedisStores
  import opened Wrappers

  lemma QuotientOrder(x: real, y: real, r: real)
    requires r > 0.0 && x <= y
    ensures x / r <= y / r
  {
    var p, q := x / r, y / r;
    assert p * r == x && q * r == y;
  }

  lemma QuotientStrict(x: real, y: real, r: real)
    requires r > 0.0 && x < y
    ensures x / r < y / r
  {
    var p, q := x / r, y / r;
    assert p * r == x && q * r == y;
  }

  lemma QuotientSum(x: real, y: real, r: real)
    requires r > 0.0
    ensures x / r + y / r == (x + y) / r
  {
    var p, q, s := x / r, y / r, (x + y) / r;
    assert p * r == x && q * r == y && s * r == x + y;
    CancelFactor(p + q, s, r);
  }

  lemma FlooredQuotients(exact: real, floored: real, rate: real)
    requires rate > 0.0 && exact - 1.0 < floored < exact + 1.0
    ensures exact / rate - 1.0 / rate < floored / rate < exact / rate + 1.0 / rate
  {
    QuotientStrict(exact - 1.0, floored, rate);
    QuotientStrict(floored, exact + 1.0, rate);
    QuotientSum(exact - 1.0, 1.0, rate);
    QuotientSum(exact, 1.0, rate);
  }

  /**
   Waits computed from the floored count: before they are cut to nanoseconds, RetryAfter is never
   below the exact wait for a token and exceeds it by less than 1 / rate, and ResetAfter differs
   from the exact time to a full bucket by less than 1 / rate either way.
   */
  lemma FlooredWaits(b: Option<(real, int)>, cfg: Config, now: int)
    requires cfg.rps > 0.0 && cfg.burst >= 1.0
    ensures var tokens, r := Left(b, cfg.burst, cfg.rps, now), ReplyOf(b, cfg.burst, cfg.rps, now);
            var exactReset, reset := (cfg.burst - tokens) / cfg.rps, ResetSeconds(r.limit, r.remaining, cfg.rps);
            && exactReset - 1.0 / cfg.rps < reset < exactReset + 1.0 / cfg.rps
            && (!r.allowed ==>
                  var exact := (1.0 - tokens) / cfg.rps;
                  exact <= RetrySeconds(r.remaining, cfg.rps) < exact + 1.0 / cfg.rps)
  {
    var rate, tokens, r := cfg.rps, Left(b, cfg.burst, cfg.rps, now), ReplyOf(b, cfg.burst, cfg.rps, now);
    var floor, limit := r.remaining as real, r.limit as real;
    assert floor <= tokens < floor + 1.0 && limit <= cfg.burst < limit + 1.0;
    assert tokens <= cfg.burst;
    FlooredQuotients(cfg.burst - tokens, if floor >= limit then 0.0 else limit - floor, rate);
    if !r.allowed {
      QuotientOrder(1.0 - tokens, 1.0 - floor, rate);
      FlooredQuotients(1.0 - tokens, 1.0 - floor, rate);
      QuotientOrder(0.0, 1.0 - tokens, rate);
      assert 0.0 / rate == 0.0;
    }
  }

  /** The reported wait is the one just bounded, cut to whole nanoseconds. */
  lemma RetryAfterIsCut(remaining: int, rate: real)
    requires rate > 0.0
    ensures var retry, wait := RetryAfterFromRemaining(false, remaining, rate), RetrySeconds(remaining, rate);
            retry as real <= wait * 1_000_000_000.0 < retry as real + 1.0
  {
    var quotient := (1.0 - remaining as real) / rate;
  }

  /** Cutting a wait that is between x and x + q seconds to retry nanoseconds. */
  lemma CutWait(x: real, wait: real, q: real, retry: int)
    requires x <= wait < x + q
    requires retry as real <= wait * 1_000_000_000.0 < retry as real + 1.0
    ensures x * 1_000_000_000.0 - 1.0 < retry as real < x * 1_000_000_000.0 + q * 1_000_000_000.0
  {
  }

  /** The exact wait for a token, in nanoseconds, after a script has run. */
  function ExactWait(b: Option<(real, int)>, cfg: Config, now: int): real
    requires cfg.rps > 0.0
  {
    (1.0 - Left(b, cfg.burst, cfg.rps, now)) / cfg.rps * 1_000_000_000.0
  }

  /** The RetryAfter the client is told. */
  function ToldWait(b: Option<(real, int)>, cfg: Config, now: int): int {
    DecisionOf(ReplyOf(b, cfg.burst, cfg.rps, now), cfg.rps).retryAfter
  }

  /**
   The RetryAfter a denied client is told: less than a nanosecond below the exact wait and less
   than 1 / rate above it.
   */
  lemma ReportedRetryAfter(b: Option<(real, int)>, cfg: Config, now: int)
    requires cfg.rps > 0.0 && cfg.burst >= 1.0 && !Allows(b, cfg.burst, cfg.rps, now)
    ensures ExactWait(b, cfg, now) - 1.0 < ToldWait(b, cfg, now) as real < ExactWait(b, cfg, now) + Period(cfg.rps)
  {
    hide Left, Allows, RetrySeconds, ResetSeconds, FromSeconds, ResetAfterFromRemaining;
    var tokens, r := Left(b, cfg.burst, cfg.rps, now), ReplyOf(b, cfg.burst, cfg.rps, now);
    FlooredWaits(b, cfg, now);
    RetryAfterIsCut(r.remaining, cfg.rps);
    CutWait((1.0 - tokens) / cfg.rps, RetrySeconds(r.remaining, cfg.rps), 1.0 / cfg.rps, ToldWait(b, cfg, now));
  }

  /** Whole tokens at a rate take whole periods. */
  lemma WholePeriods(x: real, rate: real)
    requires rate > 0.0
    ensures x / rate * 1_000_000_000.0 == x * Period(rate)
  {
    assert x / rate == x * (1.0 / rate);
  }

  /** The whole tokens that are missing before one is there. */
  function Lacking(b: Option<(real, int)>, cfg: Config, now: int): int {
    1 - Left(b, cfg.burst, cfg.rps, now).Floor
  }

  /** A denied client is told the time of the whole tokens it lacks, cut once. */
  lemma ToldWholeTokens(b: Option<(real, int)>, cfg: Config, now: int)
    requires Valid(cfg) && !Allows(b, cfg.burst, cfg.rps, now)
    ensures ToldWait(b, cfg, now) == (Lacking(b, cfg, now) as real * Period(cfg.rps)).Floor
  {
    hide Period, FromSeconds, ResetAfterFromRemaining;
    var lack := Lacking(b, cfg, now) as real;
    WholePeriods(lack, cfg.rps);
    QuotientOrder(0.0, lack, cfg.rps);
    FloorOfNonnegative(lack / cfg.rps);
  }

  lemma FloorOfNonnegative(seconds: real)
    requires seconds >= 0.0
    ensures FromSeconds(seconds) == (seconds * 1_000_000_000.0).Floor
  {
  }

  lemma ScaledBound(told: real, lack: real, rate: real)
    requires rate > 0.0
    ensures told >= lack / rate * 1_000_000_000.0 <==> told * rate >= lack * 1_000_000_000.0
  {
    var exact := lack / rate * 1_000_000_000.0;
    assert exact * rate == lack * 1_000_000_000.0;
    if told >= exact {
      ScaleOrder(rate, exact, told);
    } else {
      assert (exact - told) * rate > 0.0;
    }
  }

  /**
   Whatever fraction of a token is there, a denied client is told the same wait: the period of one
   token cut to nanoseconds. It is long enough exactly when that many nanoseconds produce what lacks.
   */
  lemma ToldIsConstant(b: Option<(real, int)>, cfg: Config, now: int)
    requires Valid(cfg) && 0.0 <= Left(b, cfg.burst, cfg.rps, now) && !Allows(b, cfg.burst, cfg.rps, now)
    ensures ToldWait(b, cfg, now) == Period(cfg.rps).Floor
    ensures ToldWait(b, cfg, now) as real >= ExactWait(b, cfg, now)
       <==> Period(cfg.rps).Floor as real * cfg.rps
            >= (1.0 - Left(b, cfg.burst, cfg.rps, now)) * 1_000_000_000.0
  {
    hide Period, ToldWait;
    var tokens := Left(b, cfg.burst, cfg.rps, now);
    assert tokens.Floor == 0;
    hide Left, Allows;
    ToldWholeTokens(b, cfg, now);
    ScaledBound(Period(cfg.rps).Floor as real, 1.0 - tokens, cfg.rps);
  }

  /** No denied client of this configuration is told less than the exact wait. */
  ghost predicate NeverToldShort(cfg: Config)
    requires cfg.rps > 0.0
  {
    forall b, now :: !Allows(b, cfg.burst, cfg.rps, now) ==> ToldWait(b, cfg, now) as real >= ExactWait(b, cfg, now)
  }

  lemma WholePeriodToldEnough(b: Option<(real, int)>, cfg: Config, now: int)
    requires Valid(cfg) && Whole(Period(cfg.rps)) && !Allows(b, cfg.burst, cfg.rps, now)
    ensures ToldWait(b, cfg, now) as real >= ExactWait(b, cfg, now)
  {
    hide ToldWait, Period, Allows, Left, Whole;
    var tokens := Left(b, cfg.burst, cfg.rps, now);
    assert 1.0 - tokens <= Lacking(b, cfg, now) as real;
    hide Lacking;
    ToldWholeTokens(b, cfg, now);
    WholeCut(Lacking(b, cfg, now), Period(cfg.rps), ToldWait(b, cfg, now));
    WholePeriods(1.0 - tokens, cfg.rps);
    PeriodIsPositive(cfg.rps);
    WholeTokensTakeLonger(1.0 - tokens, Lacking(b, cfg, now), Period(cfg.rps));
  }

  lemma WholeTokensTakeLonger(lack: real, whole: int, period: real)
    requires period > 0.0 && lack <= whole as real
    ensures whole as real * period >= lack * period
  {
    ScaleOrder(period, lack, whole as real);
  }

  /**
   Exactly when the wait told is never short: over every stored bucket and every reading, if and only
   if one token takes a whole number of nanoseconds.
   */
  lemma NeverToldShortExactly(cfg: Config)
    requires Valid(cfg)
    ensures NeverToldShort(cfg) <==> Whole(Period(cfg.rps))
  {
    hide ToldWait, ExactWait, Allows, Period, Left;
    if Whole(Period(cfg.rps)) {
      forall b, now | !Allows(b, cfg.burst, cfg.rps, now)
        ensures ToldWait(b, cfg, now) as real >= ExactWait(b, cfg, now)
      {
        WholePeriodToldEnough(b, cfg, now);
      }
    } else {
      EmptyBucketToldShort(cfg, 0);
    }
  }

  /** Otherwise a client that meets an empty bucket is told too little. */
  lemma EmptyBucketToldShort(cfg: Config, now: int)
    requires Valid(cfg) && !Whole(Period(cfg.rps))
    ensures !Allows(Some((0.0, now)), cfg.burst, cfg.rps, now)
    ensures ToldWait(Some((0.0, now)), cfg, now) as real < ExactWait(Some((0.0, now)), cfg, now)
  {
    hide ToldWait, Period;
    assert (now - now) as real / 1000.0 * cfg.rps == 0.0;
    assert Refilled(Some((0.0, now)), cfg.burst, cfg.rps, now) == 0.0;
    ToldIsConstant(Some((0.0, now)), cfg, now);
    WholePeriods(1.0, cfg.rps);
  }

  /** The cut can show: three tokens a second, an empty bucket, and a third of a nanosecond too little. */
  lemma RetryAfterCanBeShort(now: int)
    ensures var cfg := Config(3.0, 1.0, ALGORITHM_TOKEN_BUCKET);
            var r := ReplyOf(Some((0.0, now)), cfg.burst, cfg.rps, now);
            && Valid(cfg) && !r.allowed
            && DecisionOf(r, cfg.rps).retryAfter == 333_333_333
            && DecisionOf(r, cfg.rps).retryAfter as real < 1.0 / cfg.rps * 1_000_000_000.0
  {
    assert (now - now) as real / 1000.0 * 3.0 == 0.0;
    assert Refilled(Some((0.0, now)), 1.0, 3.0, now) == 0.0;
    assert (1.0 / 3.0 * 1_000_000_000.0).Floor == 333_333_333;
  }

  /**
   Cutting both numbers never makes a bucket look full: under every valid configuration, fractional
   bursts included, what is left is reported below the limit, as it is, and the reset time before it
   is cut to nanoseconds is at least the time one token takes.
   */
  lemma NeverReportedFull(b: Option<(real, int)>, cfg: Config, now: int)
    requires Valid(cfg)
    ensures var tokens, r := Left(b, cfg.burst, cfg.rps, now), ReplyOf(b, cfg.burst, cfg.rps, now);
            && tokens < cfg.burst && r.remaining < r.limit
            && ResetSeconds(r.limit, r.remaining, cfg.rps) >= 1.0 / cfg.rps
  {
    var r := ReplyOf(b, cfg.burst, cfg.rps, now);
    assert r.remaining < r.limit;
    QuotientOrder(1.0, (r.limit - r.remaining) as real, cfg.rps);
  }
}
