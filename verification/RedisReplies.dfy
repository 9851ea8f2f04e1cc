/** What a Redis client is told, against the in-memory bucket and against what really happens next. */
module RedisReplies {
  import opened Admissions
  import opened Configs
  import opened Durations
  import opened RedisStores
  import opened RedisWaits
  import opened Wrappers
  import BucketRuns
  import BucketWaits
  import RedisRuns
  import T = TokenBuckets

  /** The in-memory bucket that stands for a stored one. */
  function InMemory(b: Option<(real, int)>, cfg: Config, now: int): T.BucketState {
    RedisRuns.Mirror(b, cfg.burst, cfg.rps, now)
  }

  /** What TokenBucket.Allow reports for it at the same time. */
  function InMemoryDecision(b: Option<(real, int)>, cfg: Config, now: int): Decision {
    var s, t := InMemory(b, cfg, now), now * 1_000_000;
    T.Report(T.Next(s, t), T.Admits(s, t))
  }

  /**
   An answered request is told what the in-memory bucket would tell it, as far as admission and what
   remains go; one whose script failed, or whose reply was lost, is never told ALLOW.
   */
  lemma RepliesAreTheBuckets(b: Option<(real, int)>, cfg: Config, now: int, delivery: Delivery)
    ensures delivery.Answered? ==>
              && Answer(b, cfg, now, delivery).allowed == T.Admits(InMemory(b, cfg, now), now * 1_000_000)
              && Answer(b, cfg, now, delivery).allowed == InMemoryDecision(b, cfg, now).allowed
              && Answer(b, cfg, now, delivery).remaining == InMemoryDecision(b, cfg, now).remaining
    ensures !delivery.Answered? ==> !Answer(b, cfg, now, delivery).allowed
  {
    hide T.Refilled, Refilled;
    RedisRuns.ScriptIsBucketStep(b, cfg.burst, cfg.rps, now);
  }

  lemma SameInstants(now: int, n: nat)
    ensures RedisRuns.InNanoseconds(AtOnce(now, n)) == AtOnce(now * 1_000_000, n)
  {
  }

  /** What a script leaves is there at the same reading. */
  lemma LeftIsThere(b: Option<(real, int)>, cfg: Config, now: int)
    ensures var after := NextBucket(b, cfg.burst, cfg.rps, now);
            T.Refilled(InMemory(after, cfg, now), now * 1_000_000) == Left(b, cfg.burst, cfg.rps, now)
  {
    var s := InMemory(NextBucket(b, cfg.burst, cfg.rps, now), cfg, now);
    assert Seconds(now * 1_000_000 - s.lastRefill) == 0.0;
    assert Left(b, cfg.burst, cfg.rps, now) <= cfg.burst;
  }

  lemma LeftIsNonnegative(b: Option<(real, int)>, cfg: Config, now: int)
    requires Valid(cfg) && (b.Some? ==> b.value.0 >= 0.0 && b.value.1 <= now)
    ensures 0.0 <= Left(b, cfg.burst, cfg.rps, now)
  {
    RedisRuns.ScriptKeepsTokensNonnegative(b, cfg.burst, cfg.rps, now);
  }

  /**
   Remaining is honest: on readings in order exactly that many of n further scripts at the same
   reading are granted.
   */
  lemma RemainingIsHonest(b: Option<(real, int)>, cfg: Config, now: int, n: nat)
    requires Valid(cfg) && (b.Some? ==> b.value.0 >= 0.0 && b.value.1 <= now)
    ensures var after := NextBucket(b, cfg.burst, cfg.rps, now);
            Count(RedisRuns.Decisions(after, cfg.burst, cfg.rps, AtOnce(now, n)), 0, n)
            == Fewer(n, Answer(b, cfg, now, Answered).remaining)
  {
    hide T.Refilled, Left, NextBucket, RedisRuns.Decisions, BucketRuns.Decisions, RedisRuns.InNanoseconds;
    var after := NextBucket(b, cfg.burst, cfg.rps, now);
    LeftIsThere(b, cfg, now);
    LeftIsNonnegative(b, cfg, now);
    if n > 0 {
      SameInstants(now, n);
      RedisRuns.ScriptRunIsBucketRun(after, cfg.burst, cfg.rps, AtOnce(now, n));
      BucketWaits.AdmittedAtOnce(InMemory(after, cfg, now), now * 1_000_000, n);
    } else {
      RemainingIsNonnegative(b, cfg, now);
    }
  }

  lemma RemainingIsNonnegative(b: Option<(real, int)>, cfg: Config, now: int)
    requires 0.0 <= Left(b, cfg.burst, cfg.rps, now)
    ensures 0 <= Answer(b, cfg, now, Answered).remaining
  {
  }

  /** The exact time, in nanoseconds, until the bucket a script leaves is full again. */
  function ExactReset(b: Option<(real, int)>, cfg: Config, now: int): real
    requires cfg.rps > 0.0
  {
    (cfg.burst - Left(b, cfg.burst, cfg.rps, now)) / cfg.rps * 1_000_000_000.0
  }

  lemma CutReset(exact: real, reset: real, q: real, told: int)
    requires exact - q < reset < exact + q
    requires told as real <= reset * 1_000_000_000.0 < told as real + 1.0
    ensures (exact - q) * 1_000_000_000.0 - 1.0 < told as real < (exact + q) * 1_000_000_000.0
  {
  }

  /** The reset time told is what the tokens missing from the reported limit take, cut to nanoseconds. */
  lemma ResetOfMissingTokens(b: Option<(real, int)>, cfg: Config, now: int)
    requires Valid(cfg)
    ensures var d := Answer(b, cfg, now, Answered);
            d.resetAfter == ((d.limit - d.remaining as real) * Period(cfg.rps)).Floor
  {
    hide Left, Allows, RetrySeconds, RetryAfterFromRemaining, FromSeconds, Period;
    var r := ReplyOf(b, cfg.burst, cfg.rps, now);
    NeverReportedFull(b, cfg, now);
    PeriodIsPositive(cfg.rps);
    var missing := r.limit as real - r.remaining as real;
    assert (r.limit - r.remaining) as real == missing;
    QuotientOrder(0.0, missing, cfg.rps);
    FloorOfNonnegative(missing / cfg.rps);
    WholePeriods(missing, cfg.rps);
  }

  /** The reset time told is within one period, and the nanosecond that is cut off, of the exact one. */
  lemma ReportedReset(b: Option<(real, int)>, cfg: Config, now: int)
    requires Valid(cfg)
    ensures var d := Answer(b, cfg, now, Answered);
            ExactReset(b, cfg, now) - Period(cfg.rps) - 1.0 < d.resetAfter as real
            < ExactReset(b, cfg, now) + Period(cfg.rps)
  {
    hide Left, Allows, RetrySeconds, RetryAfterFromRemaining;
    var r := ReplyOf(b, cfg.burst, cfg.rps, now);
    var reset := ResetSeconds(r.limit, r.remaining, cfg.rps);
    FlooredWaits(b, cfg, now);
    NeverReportedFull(b, cfg, now);
    hide ResetSeconds;
    PeriodIsPositive(cfg.rps);
    FloorOfNonnegative(reset);
    CutReset((cfg.burst - Left(b, cfg.burst, cfg.rps, now)) / cfg.rps, reset, 1.0 / cfg.rps,
             Answer(b, cfg, now, Answered).resetAfter);
  }
}
