/**
 The Redis-backed store. Each Redis command, the token-bucket script included, is one atomic step
 on a shared keyspace; times are Unix milliseconds.
 */
module RedisStores {
  import opened Configs
  import opened Durations
  import opened Managers
  import opened Wrappers

  const STATE_PREFIX := "ratelimit:state:"
  const CONFIG_PREFIX := "ratelimit:config:"
  const STATS_PREFIX := "ratelimit:stats:"

  function StateKey(id: string): string { STATE_PREFIX + id }
  function ConfigKey(id: string): string { CONFIG_PREFIX + id }
  function StatsKey(id: string): string { STATS_PREFIX + id }

  /** No client's keys are another's, and no two kinds of key meet, whatever the identifiers. */
  lemma KeysNeverCollide(a: string, b: string)
    ensures StateKey(a) == StateKey(b) ==> a == b
    ensures ConfigKey(a) == ConfigKey(b) ==> a == b
    ensures StatsKey(a) == StatsKey(b) ==> a == b
    ensures StateKey(a) != ConfigKey(b) && StateKey(a) != StatsKey(b) && ConfigKey(a) != StatsKey(b)
  {
    assert a == StateKey(a)[16..] == ConfigKey(a)[17..] == StatsKey(a)[16..];
    assert b == StateKey(b)[16..] == ConfigKey(b)[17..] == StatsKey(b)[16..];
    assert StateKey(a)[10] == 's' && ConfigKey(b)[10] == 'c' && StatsKey(b)[10] == 's' && ConfigKey(a)[10] == 'c';
    assert StateKey(a)[14] == 'e' && StatsKey(b)[14] == 's';
  }

  /** The hashes kept under the three kinds of key. */
  datatype Hash =
    | BucketHash(tokens: real, ts: int)
    | ConfigHash(cfg: Config)
    | StatsHash(stats: ClientStats)

  type Keyspace = map<string, Hash>

  function StoredConfig(keys: Keyspace, id: string): Option<Config> {
    if ConfigKey(id) in keys && keys[ConfigKey(id)].ConfigHash? then Some(keys[ConfigKey(id)].cfg) else None
  }

  function StoredStats(keys: Keyspace, id: string): ClientStats {
    if StatsKey(id) in keys && keys[StatsKey(id)].StatsHash? then keys[StatsKey(id)].stats else NO_STATS
  }

  /** The two fields of the bucket hash, if they are there. */
  function StoredBucket(keys: Keyspace, id: string): Option<(real, int)> {
    var key := StateKey(id);
    if key in keys && keys[key].BucketHash? then Some((keys[key].tokens, keys[key].ts)) else None
  }

  /** The tokens the script finds after its refill; a missing bucket starts full. */
  function Refilled(b: Option<(real, int)>, capacity: real, rate: real, now: int): real {
    var tokens := if b.Some? then b.value.0 else capacity;
    var ts := if b.Some? then b.value.1 else now;
    Min(capacity, tokens + (now - ts) as real / 1000.0 * rate)
  }

  predicate Allows(b: Option<(real, int)>, capacity: real, rate: real, now: int) {
    Refilled(b, capacity, rate, now) >= 1.0
  }

  /** The tokens the script leaves. */
  function Left(b: Option<(real, int)>, capacity: real, rate: real, now: int): real {
    Refilled(b, capacity, rate, now) - if Allows(b, capacity, rate, now) then 1.0 else 0.0
  }

  /** The bucket the script leaves. */
  function NextBucket(b: Option<(real, int)>, capacity: real, rate: real, now: int): (next: Option<(real, int)>)
    ensures next.Some?
  {
    Some((Left(b, capacity, rate, now), now))
  }

  function AfterScript(keys: Keyspace, id: string, capacity: real, rate: real, now: int): Keyspace {
    keys[StateKey(id) := BucketHash(Left(StoredBucket(keys, id), capacity, rate, now), now)]
  }

  function AfterWriteConfig(keys: Keyspace, id: string, cfg: Config): Keyspace {
    keys[ConfigKey(id) := ConfigHash(cfg)]
  }

  function AfterDropState(keys: Keyspace, id: string): Keyspace {
    keys - {StateKey(id)}
  }

  function AfterDropClient(keys: Keyspace, id: string): Keyspace {
    keys - {ConfigKey(id), StateKey(id)}
  }

  function AfterCount(keys: Keyspace, id: string, allowed: bool): Keyspace {
    keys[StatsKey(id) := StatsHash(Recorded(StoredStats(keys, id), allowed))]
  }

  /** The script's reply; Redis cuts both numbers to integers. */
  datatype ScriptReply = ScriptReply(allowed: bool, remaining: int, limit: int)

  function ReplyOf(b: Option<(real, int)>, capacity: real, rate: real, now: int): ScriptReply {
    ScriptReply(Allows(b, capacity, rate, now), Left(b, capacity, rate, now).Floor, Truncate(capacity))
  }

  /** The wait in seconds computed from a floored token count, before it is cut to nanoseconds. */
  function RetrySeconds(remaining: int, rate: real): real
    requires rate > 0.0
  {
    var seconds := (1.0 - remaining as real) / rate;
    if seconds < 0.0 then 0.0 else seconds
  }

  function RetryAfterFromRemaining(allowed: bool, remaining: int, rate: real): int {
    if allowed then 0 else if rate <= 0.0 then NEVER_REFILLS else FromSeconds(RetrySeconds(remaining, rate))
  }

  function ResetSeconds(limit: int, remaining: int, rate: real): real
    requires rate > 0.0
  {
    if remaining >= limit then 0.0 else (limit - remaining) as real / rate
  }

  function ResetAfterFromRemaining(limit: int, remaining: int, rate: real): int {
    if remaining >= limit then
      0
    else if rate <= 0.0 then
      NEVER_REFILLS
    else
      FromSeconds(ResetSeconds(limit, remaining, rate))
  }

  /** The decision built from the script's reply. */
  function DecisionOf(r: ScriptReply, rate: real): Decision {
    Decision(
      r.allowed,
      r.limit as real,
      r.remaining,
      RetryAfterFromRemaining(r.allowed, r.remaining, rate),
      ResetAfterFromRemaining(r.limit, r.remaining, rate))
  }

  /** The decision when the script failed or its reply did not arrive: denied. */
  function FailedClosed(cfg: Config): Decision {
    Decision(false, cfg.burst, 0, 0, 0)
  }

  /** What can happen to a script call on its way. */
  datatype Delivery = Answered | NotRun | ReplyLost

  /** What can happen to the two commands of SetConfig. */
  datatype Writes = BothDone | WriteFailed | DeleteFailed

  datatype StoreError = Invalid(error: ConfigError) | Unreachable

  /** The configuration a request runs under: unreadable and missing both mean the default. */
  function ConfigInForce(keys: Keyspace, id: string, readable: bool): Config {
    var stored := StoredConfig(keys, id);
    if readable && stored.Some? then stored.value else DEFAULT_CONFIG
  }

  /** The decision a request returns, whatever happens to its script. */
  function Answer(b: Option<(real, int)>, cfg: Config, now: int, delivery: Delivery): Decision {
    if delivery.Answered? then DecisionOf(ReplyOf(b, cfg.burst, cfg.rps, now), cfg.rps) else FailedClosed(cfg)
  }

  class RedisStore {
    /** The keyspace every instance shares. */
    var keys: Keyspace

    constructor ()
      ensures keys == map[]
    {
      keys := map[];
    }

    method GetConfig(id: string, readable: bool) returns (r: Option<Config>)
      ensures r == if readable then StoredConfig(keys, id) else None
    {
      if !readable {
        return None;
      }
      r := StoredConfig(keys, id);
    }

    /** The token-bucket script, run as one command. */
    method RunScript(id: string, capacity: real, refillRate: real, now: int) returns (r: ScriptReply)
      modifies this
      ensures keys == AfterScript(old(keys), id, capacity, refillRate, now)
      ensures r == ReplyOf(StoredBucket(old(keys), id), capacity, refillRate, now)
    {
      var stored := StoredBucket(keys, id);
      var tokens, ts := capacity, now;
      if stored.Some? {
        tokens, ts := stored.value.0, stored.value.1;
      }
      var elapsedSecs := (now - ts) as real / 1000.0;
      tokens := Min(capacity, tokens + elapsedSecs * refillRate);
      assert tokens == Refilled(stored, capacity, refillRate, now);
      var allowed := false;
      if tokens >= 1.0 {
        allowed := true;
        tokens := tokens - 1.0;
      }
      keys := keys[StateKey(id) := BucketHash(tokens, now)];
      r := ScriptReply(allowed, tokens.Floor, Truncate(capacity));
    }

    /** Counts a decision; a count that cannot be written is dropped. */
    method RecordDecision(id: string, allowed: bool, counted: bool)
      modifies this
      ensures keys == if counted then AfterCount(old(keys), id, allowed) else old(keys)
    {
      if !counted {
        return;
      }
      var stats := StoredStats(keys, id);
      if allowed {
        stats := stats.(allowed := stats.allowed + 1);
      } else {
        stats := stats.(denied := stats.denied + 1);
      }
      keys := keys[StatsKey(id) := StatsHash(stats)];
    }

    /** One request, with no other instance in between; `now` is read before the script runs. */
    method Allow(id: string, now: int, readable: bool, delivery: Delivery, counted: bool) returns (d: Decision)
      modifies this
      ensures var cfg := ConfigInForce(old(keys), id, readable);
              && d == Answer(StoredBucket(old(keys), id), cfg, now, delivery)
              && var met := if delivery.NotRun? then old(keys) else AfterScript(old(keys), id, cfg.burst, cfg.rps, now);
                 keys == if counted then AfterCount(met, id, d.allowed) else met
    {
      var stored := GetConfig(id, readable);
      var cfg := if stored.Some? then stored.value else DEFAULT_CONFIG;
      if delivery.NotRun? {
        RecordDecision(id, false, counted);
        return FailedClosed(cfg);
      }
      var r := RunScript(id, cfg.burst, cfg.rps, now);
      if delivery.ReplyLost? {
        RecordDecision(id, false, counted);
        return FailedClosed(cfg);
      }
      RecordDecision(id, r.allowed, counted);
      d := DecisionOf(r, cfg.rps);
    }

    /** Writes the configuration, then deletes the state; a failure in between leaves the first done. */
    method SetConfig(id: string, cfg: Config, writes: Writes) returns (r: Result<(), StoreError>)
      modifies this
      ensures r.Success? <==> Valid(cfg) && writes.BothDone?
      ensures keys == if !Valid(cfg) || writes.WriteFailed? then old(keys)
                      else if writes.DeleteFailed? then AfterWriteConfig(old(keys), id, cfg)
                      else AfterDropState(AfterWriteConfig(old(keys), id, cfg), id)
    {
      var checked := Validate(cfg);
      if checked.Failure? {
        return Failure(Invalid(checked.error));
      }
      if writes.WriteFailed? {
        return Failure(Unreachable);
      }
      keys := keys[ConfigKey(id) := ConfigHash(cfg)];
      if writes.DeleteFailed? {
        return Failure(Unreachable);
      }
      keys := keys - {StateKey(id)};
      r := Success(());
    }

    /** One command removes both keys, or fails and removes neither. */
    method RemoveClient(id: string, deleted: bool)
      modifies this
      ensures keys == if deleted then AfterDropClient(old(keys), id) else old(keys)
    {
      if !deleted {
        return;
      }
      keys := keys - {ConfigKey(id), StateKey(id)};
    }
  }

  /** What one client's requests can see or change. */
  ghost predicate SameClient(keys: Keyspace, keys': Keyspace, id: string) {
    && StoredConfig(keys, id) == StoredConfig(keys', id)
    && StoredBucket(keys, id) == StoredBucket(keys', id)
    && StoredStats(keys, id) == StoredStats(keys', id)
  }

  /** Every command for one client leaves every other client as it was. */
  lemma OtherClientsUntouched(keys: Keyspace, id: string, other: string, cfg: Config, now: int, allowed: bool)
    requires id != other
    ensures SameClient(keys, AfterScript(keys, id, cfg.burst, cfg.rps, now), other)
    ensures SameClient(keys, AfterWriteConfig(keys, id, cfg), other)
    ensures SameClient(keys, AfterDropState(keys, id), other)
    ensures SameClient(keys, AfterDropClient(keys, id), other)
    ensures SameClient(keys, AfterCount(keys, id, allowed), other)
  {
    KeysNeverCollide(id, other);
    KeysNeverCollide(other, id);
  }

  /** What the commands for a client do to that client. */
  lemma OwnCommands(keys: Keyspace, id: string, cfg: Config, now: int, allowed: bool)
    ensures StoredStats(AfterScript(keys, id, cfg.burst, cfg.rps, now), id) == StoredStats(keys, id)
    ensures StoredStats(AfterWriteConfig(keys, id, cfg), id) == StoredStats(keys, id)
    ensures StoredStats(AfterDropState(keys, id), id) == StoredStats(keys, id)
    ensures StoredStats(AfterDropClient(keys, id), id) == StoredStats(keys, id)
    ensures StoredBucket(AfterScript(keys, id, cfg.burst, cfg.rps, now), id)
         == NextBucket(StoredBucket(keys, id), cfg.burst, cfg.rps, now)
    ensures StoredConfig(AfterScript(keys, id, cfg.burst, cfg.rps, now), id) == StoredConfig(keys, id)
    ensures StoredBucket(AfterWriteConfig(keys, id, cfg), id) == StoredBucket(keys, id)
    ensures StoredConfig(AfterWriteConfig(keys, id, cfg), id) == Some(cfg)
    ensures StoredBucket(AfterDropState(keys, id), id) == None
    ensures StoredConfig(AfterDropState(keys, id), id) == StoredConfig(keys, id)
    ensures StoredBucket(AfterDropClient(keys, id), id) == None
    ensures StoredConfig(AfterDropClient(keys, id), id) == None
    ensures StoredBucket(AfterCount(keys, id, allowed), id) == StoredBucket(keys, id)
    ensures StoredConfig(AfterCount(keys, id, allowed), id) == StoredConfig(keys, id)
    ensures StoredStats(AfterCount(keys, id, allowed), id) == Recorded(StoredStats(keys, id), allowed)
  {
    KeysNeverCollide(id, id);
  }

  /**
   A configuration once written is the one every request that can read it runs under, whatever this
   client's requests and all commands for others do in between; once removed, and when it cannot be
   read, it is the default.
   */
  lemma ConfigurationTakesEffect(keys: Keyspace, id: string, cfg: Config)
    ensures var configured := AfterDropState(AfterWriteConfig(keys, id, cfg), id);
            && ConfigInForce(configured, id, true) == cfg
            && ConfigInForce(AfterWriteConfig(keys, id, cfg), id, true) == cfg
            && StoredBucket(configured, id) == None
    ensures ConfigInForce(AfterDropClient(keys, id), id, true) == DEFAULT_CONFIG
    ensures StoredBucket(AfterDropClient(keys, id), id) == None
    ensures ConfigInForce(keys, id, false) == DEFAULT_CONFIG
    ensures ConfigInForce(map[], id, true) == DEFAULT_CONFIG
  {
    OwnCommands(keys, id, cfg, 0, false);
    OwnCommands(AfterWriteConfig(keys, id, cfg), id, cfg, 0, false);
  }

  /**
   The limit a client is told is its burst exactly when the burst is a whole number; the reply to a
   request whose script failed tells it exactly.
   */
  lemma ReportedLimit(b: Option<(real, int)>, cfg: Config, now: int)
    ensures DecisionOf(ReplyOf(b, cfg.burst, cfg.rps, now), cfg.rps).limit == cfg.burst
       <==> cfg.burst == cfg.burst.Floor as real
    ensures cfg.burst >= 0.0 ==>
              DecisionOf(ReplyOf(b, cfg.burst, cfg.rps, now), cfg.rps).limit == cfg.burst.Floor as real
    ensures FailedClosed(cfg).limit == cfg.burst
  {
    hide Left, Allows, Truncate, RetryAfterFromRemaining, ResetAfterFromRemaining;
    TruncateIsExact(cfg.burst);
  }

  /** A burst of two and a half is reported as two. */
  lemma FractionalBurstIsReportedShort(now: int)
    ensures var cfg := Config(1.0, 2.5, ALGORITHM_TOKEN_BUCKET);
            && Valid(cfg)
            && DecisionOf(ReplyOf(None, cfg.burst, cfg.rps, now), cfg.rps).limit == 2.0 != cfg.burst
  {
    ReportedLimit(None, Config(1.0, 2.5, ALGORITHM_TOKEN_BUCKET), now);
  }
}
