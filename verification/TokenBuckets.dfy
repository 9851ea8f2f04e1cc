/** The in-memory token bucket: lazy refill, check and consume in one atomic step. */
module TokenBuckets {
  import opened Configs
  import opened Durations

  /** The plain data of a bucket, as captured by State and put back by FromState. */
  datatype BucketState = BucketState(tokens: real, lastRefill: int, capacity: real, refillRate: real)

  /** A bucket as newly created at `now`: full. */
  function Fresh(capacity: real, refillRate: real, now: int): BucketState {
    BucketState(capacity, now, capacity, refillRate)
  }

  /** The tokens a call at `now` finds. */
  function Refilled(s: BucketState, now: int): real {
    Min(s.capacity, s.tokens + Seconds(now - s.lastRefill) * s.refillRate)
  }

  predicate Admits(s: BucketState, now: int) {
    Refilled(s, now) >= 1.0
  }

  /** The bucket a call at `now` leaves behind. */
  function Next(s: BucketState, now: int): BucketState {
    s.(tokens := Refilled(s, now) - if Admits(s, now) then 1.0 else 0.0, lastRefill := now)
  }

  /** How long until a token is there, seen from a bucket as a call leaves it. */
  function RetryAfter(s: BucketState, allowed: bool): int {
    if allowed then
      0
    else if s.refillRate <= 0.0 then
      NEVER_REFILLS
    else
      FromSeconds((1.0 - s.tokens) / s.refillRate)
  }

  /** How long until the bucket is full again. */
  function ResetAfter(s: BucketState): int {
    if s.tokens >= s.capacity then
      0
    else if s.refillRate <= 0.0 then
      NEVER_REFILLS
    else
      FromSeconds((s.capacity - s.tokens) / s.refillRate)
  }

  /** The decision reported with the bucket s that a call leaves behind. */
  function Report(s: BucketState, allowed: bool): Decision {
    Decision(allowed, s.capacity, s.tokens.Floor, RetryAfter(s, allowed), ResetAfter(s))
  }

  class TokenBucket {
    var tokens: real
    var lastRefill: int
    var capacity: real
    var refillRate: real

    function State(): BucketState
      reads this
    {
      BucketState(tokens, lastRefill, capacity, refillRate)
    }

    constructor (capacity: real, refillRate: real, now: int)
      ensures State() == Fresh(capacity, refillRate, now)
    {
      this.tokens := capacity;
      this.lastRefill := now;
      this.capacity := capacity;
      this.refillRate := refillRate;
    }

    constructor FromState(s: BucketState)
      ensures State() == s
    {
      tokens := s.tokens;
      lastRefill := s.lastRefill;
      capacity := s.capacity;
      refillRate := s.refillRate;
    }

    /** One request, at clock reading `now`. */
    method Allow(now: int) returns (d: Decision)
      modifies this
      ensures State() == Next(old(State()), now)
      ensures d == Report(State(), Admits(old(State()), now))
    {
      var elapsed := Seconds(now - lastRefill);
      tokens := tokens + elapsed * refillRate;
      if tokens > capacity {
        tokens := capacity;
      }
      lastRefill := now;

      var allowed := tokens >= 1.0;
      if allowed {
        tokens := tokens - 1.0;
      }

      var retry := CallRetryAfter(allowed);
      var reset := CallResetAfter();
      d := Decision(allowed, capacity, tokens.Floor, retry, reset);
    }

    method CallRetryAfter(allowed: bool) returns (wait: int)
      ensures wait == RetryAfter(State(), allowed)
    {
      if allowed {
        return 0;
      }
      if refillRate <= 0.0 {
        return NEVER_REFILLS;
      }
      var seconds := (1.0 - tokens) / refillRate;
      return FromSeconds(seconds);
    }

    method CallResetAfter() returns (wait: int)
      ensures wait == ResetAfter(State())
    {
      if tokens >= capacity {
        return 0;
      }
      if refillRate <= 0.0 {
        return NEVER_REFILLS;
      }
      var seconds := (capacity - tokens) / refillRate;
      return FromSeconds(seconds);
    }
  }
}
