/** Whole runs of the token-bucket script against one client's bucket. */
module RedisRuns {
  import opened Admissions
  import opened Durations
  import opened Wrappers
  import R = RedisStores
  import T = TokenBuckets
  import BucketRuns

  type Stored = Option<(real, int)>

  /** The stored bucket after the first k scripts of a run, all with the same parameters. */
  function StoredAt(b: Stored, c: real, r: real, times: seq<int>, k: nat): Stored
    requires k <= |times|
  {
    if k == 0 then b else R.NextBucket(StoredAt(b, c, r, times, k - 1), c, r, times[k - 1])
  }

  function Decisions(b: Stored, c: real, r: real, times: seq<int>): (adm: seq<bool>)
    ensures |adm| == |times|
  {
    seq(|times|, k requires 0 <= k < |times| => R.Allows(StoredAt(b, c, r, times, k), c, r, times[k]))
  }

  function InNanoseconds(times: seq<int>): (ns: seq<int>)
    ensures |ns| == |times|
  {
    seq(|times|, k requires 0 <= k < |times| => times[k] * 1_000_000)
  }

  /** The in-memory bucket a stored one stands for; a missing one stands for a new bucket. */
  function Mirror(b: Stored, c: real, r: real, now: int): T.BucketState {
    if b.Some? then T.BucketState(b.value.0, b.value.1 * 1_000_000, c, r) else T.Fresh(c, r, now * 1_000_000)
  }

  /** A run of scripts begins with one script and goes on from what it leaves. */
  lemma {:induction false} FirstScript(b: Stored, c: real, r: real, t: int, times: seq<int>, k: nat)
    requires k <= |times|
    ensures StoredAt(b, c, r, [t] + times, k + 1) == StoredAt(R.NextBucket(b, c, r, t), c, r, times, k)
  {
    hide R.NextBucket;
    if k == 0 {
      assert StoredAt(b, c, r, [t] + times, 0) == b;
    } else {
      FirstScript(b, c, r, t, times, k - 1);
    }
  }

  lemma DecisionsFromFirst(b: Stored, c: real, r: real, t: int, times: seq<int>)
    ensures Decisions(b, c, r, [t] + times)
         == [R.Allows(b, c, r, t)] + Decisions(R.NextBucket(b, c, r, t), c, r, times)
  {
    hide R.NextBucket, R.Allows;
    forall k | 0 <= k < 1 + |times|
      ensures Decisions(b, c, r, [t] + times)[k]
           == ([R.Allows(b, c, r, t)] + Decisions(R.NextBucket(b, c, r, t), c, r, times))[k]
    {
      if k > 0 {
        FirstScript(b, c, r, t, times, k - 1);
      }
    }
  }

  /** One script is one TokenBucket.Allow at the same time. */
  lemma ScriptIsBucketStep(b: Stored, c: real, r: real, now: int)
    ensures var s := Mirror(b, c, r, now);
            && R.Refilled(b, c, r, now) == T.Refilled(s, now * 1_000_000)
            && R.Allows(b, c, r, now) == T.Admits(s, now * 1_000_000)
            && forall later :: Mirror(R.NextBucket(b, c, r, now), c, r, later) == T.Next(s, now * 1_000_000)
  {
    var s := Mirror(b, c, r, now);
    var ts := if b.Some? then b.value.1 else now;
    assert Seconds(now * 1_000_000 - s.lastRefill) == (now - ts) as real / 1000.0;
  }

  /** A run of scripts decides as a run of the in-memory bucket at the same times. */
  lemma {:induction false} ScriptsAreBucketCalls(b: Stored, c: real, r: real, times: seq<int>, k: nat)
    requires k < |times|
    ensures var s, ns := Mirror(b, c, r, times[0]), InNanoseconds(times);
            && BucketRuns.StateAt(s, ns, k) == Mirror(StoredAt(b, c, r, times, k), c, r, times[k])
            && BucketRuns.Decisions(s, ns)[k] == Decisions(b, c, r, times)[k]
  {
    hide R.Refilled, T.Refilled, R.NextBucket, T.Next, R.Allows, T.Admits;
    if k > 0 {
      ScriptsAreBucketCalls(b, c, r, times, k - 1);
      ScriptIsBucketStep(StoredAt(b, c, r, times, k - 1), c, r, times[k - 1]);
    }
    ScriptIsBucketStep(StoredAt(b, c, r, times, k), c, r, times[k]);
  }

  lemma ScriptRunIsBucketRun(b: Stored, c: real, r: real, times: seq<int>)
    requires times != []
    ensures Decisions(b, c, r, times) == BucketRuns.Decisions(Mirror(b, c, r, times[0]), InNanoseconds(times))
  {
    forall k | 0 <= k < |times|
      ensures Decisions(b, c, r, times)[k] == BucketRuns.Decisions(Mirror(b, c, r, times[0]), InNanoseconds(times))[k]
    {
      ScriptsAreBucketCalls(b, c, r, times, k);
    }
  }

  /**
   Conservation for the shared bucket, whatever instances run the scripts and in whatever order
   their clock readings arrive: up to an admitted script, no more than the capacity plus the rate
   over the difference of the two readings.
   */
  lemma SharedBucketConserves(b: Stored, c: real, r: real, times: seq<int>, i: nat, k: nat)
    requires i <= k < |times| && Decisions(b, c, r, times)[k]
    ensures Count(Decisions(b, c, r, times), i, k + 1) as real <= c + r * ((times[k] - times[i]) as real / 1000.0)
  {
    hide StoredAt, BucketRuns.StateAt, BucketRuns.Allowance;
    var s, ns := Mirror(b, c, r, times[0]), InNanoseconds(times);
    ScriptRunIsBucketRun(b, c, r, times);
    BucketRuns.AdmissionsUpToAdmittedCall(s, ns, i, k);
    MirrorAllowance(b, c, r, times, i, k);
  }

  lemma MirrorAllowance(b: Stored, c: real, r: real, times: seq<int>, i: nat, k: nat)
    requires i <= k < |times|
    ensures BucketRuns.Allowance(Mirror(b, c, r, times[0]), InNanoseconds(times), i, k)
         == c + r * ((times[k] - times[i]) as real / 1000.0)
  {
    var ns := InNanoseconds(times);
    assert Seconds(ns[k] - ns[i]) == (times[k] - times[i]) as real / 1000.0;
  }

  /** The bound in true time, when every reading is within d milliseconds of it. */
  lemma SharedBucketConservesUnderSkew(
      b: Stored, c: real, r: real, times: seq<int>, truth: seq<int>, d: int, i: nat, k: nat)
    requires i <= k < |times| == |truth| && r >= 0.0
    requires forall j :: 0 <= j < |times| ==> -d <= times[j] - truth[j] <= d
    ensures Decisions(b, c, r, times)[k] ==>
              Count(Decisions(b, c, r, times), i, k + 1) as real
              <= c + r * ((truth[k] - truth[i] + 2 * d) as real / 1000.0)
  {
    hide StoredAt, Decisions;
    if Decisions(b, c, r, times)[k] {
      SharedBucketConserves(b, c, r, times, i, k);
      var x, y := (times[k] - times[i]) as real / 1000.0, (truth[k] - truth[i] + 2 * d) as real / 1000.0;
      assert -d <= times[k] - truth[k] <= d && -d <= times[i] - truth[i] <= d;
      assert x <= y;
      ScaleOrder(r, x, y);
    }
  }

  /** What is left of a stored bucket at `now` when the last script gave it ttl seconds to live. */
  function Surviving(b: Stored, ttl: int, now: int): Stored {
    if b.Some? && now >= b.value.1 + ttl * 1000 then None else b
  }

  /** The stored bucket of a run in which idle keys expire. */
  function ExpiringAt(b: Stored, c: real, r: real, ttl: int, times: seq<int>, k: nat): Stored
    requires k <= |times|
  {
    if k == 0 then
      b
    else
      R.NextBucket(Surviving(ExpiringAt(b, c, r, ttl, times, k - 1), ttl, times[k - 1]), c, r, times[k - 1])
  }

  /** The stored bucket that script k of such a run meets. */
  function MetAt(b: Stored, c: real, r: real, ttl: int, times: seq<int>, k: nat): Stored
    requires k < |times|
  {
    Surviving(ExpiringAt(b, c, r, ttl, times, k), ttl, times[k])
  }

  lemma MetNext(b: Stored, c: real, r: real, ttl: int, times: seq<int>, k: nat)
    requires k + 1 < |times|
    ensures MetAt(b, c, r, ttl, times, k + 1)
         == Surviving(R.NextBucket(MetAt(b, c, r, ttl, times, k), c, r, times[k]), ttl, times[k + 1])
  {
    hide R.NextBucket;
  }

  function ExpiringDecisions(b: Stored, c: real, r: real, ttl: int, times: seq<int>): (adm: seq<bool>)
    ensures |adm| == |times|
  {
    seq(|times|, k requires 0 <= k < |times| =>
      R.Allows(MetAt(b, c, r, ttl, times, k), c, r, times[k]))
  }

  /** A bucket that has been idle for the whole ttl has refilled anyway. */
  lemma ExpiredIsFull(b: Stored, c: real, r: real, ttl: int, now: int)
    requires c >= 0.0 && r >= 0.0 && ttl >= 0 && r * ttl as real >= c
    requires b.Some? ==> b.value.0 >= 0.0
    ensures R.Allows(Surviving(b, ttl, now), c, r, now) == R.Allows(b, c, r, now)
    ensures R.NextBucket(Surviving(b, ttl, now), c, r, now) == R.NextBucket(b, c, r, now)
  {
    if b.Some? && now >= b.value.1 + ttl * 1000 {
      var idle := (now - b.value.1) as real / 1000.0;
      ScaleOrder(r, ttl as real, idle);
      assert idle * r >= c;
      assert R.Refilled(None, c, r, now) == R.Refilled(b, c, r, now);
    }
  }

  lemma ScriptKeepsTokensNonnegative(b: Stored, c: real, r: real, now: int)
    requires c >= 0.0 && r >= 0.0
    requires b.Some? ==> b.value.0 >= 0.0 && b.value.1 <= now
    ensures R.NextBucket(b, c, r, now).value.0 >= 0.0 && R.NextBucket(b, c, r, now).value.1 == now
  {
    if b.Some? {
      ScaleOrder(r, 0.0, (now - b.value.1) as real / 1000.0);
    }
  }

  /**
   Expiry is invisible when rate * ttl >= capacity: on one ordered clock the stored bucket after
   every script, and every decision, are those of a run in which keys never expire.
   */
  lemma {:induction false} ExpiryIsInvisible(c: real, r: real, ttl: int, times: seq<int>, k: nat)
    requires c >= 0.0 && r >= 0.0 && ttl >= 0 && r * ttl as real >= c
    requires Nondecreasing(times) && k <= |times|
    ensures ExpiringAt(None, c, r, ttl, times, k) == StoredAt(None, c, r, times, k)
    ensures StoredAt(None, c, r, times, k).Some? ==> StoredAt(None, c, r, times, k).value.0 >= 0.0
    ensures k > 0 ==> StoredAt(None, c, r, times, k).Some? && StoredAt(None, c, r, times, k).value.1 == times[k - 1]
    ensures k < |times| ==> ExpiringDecisions(None, c, r, ttl, times)[k] == Decisions(None, c, r, times)[k]
  {
    hide R.NextBucket, R.Allows;
    if k > 0 {
      ExpiryIsInvisible(c, r, ttl, times, k - 1);
      var b := StoredAt(None, c, r, times, k - 1);
      ExpiredIsFull(b, c, r, ttl, times[k - 1]);
      ScriptKeepsTokensNonnegative(b, c, r, times[k - 1]);
      assert StoredAt(None, c, r, times, k) == R.NextBucket(b, c, r, times[k - 1]);
    }
    if k < |times| {
      ExpiredIsFull(StoredAt(None, c, r, times, k), c, r, ttl, times[k]);
    }
  }

  lemma ExpiringRunIsBucketRun(c: real, r: real, ttl: int, times: seq<int>)
    requires c >= 0.0 && r >= 0.0 && ttl >= 0 && r * ttl as real >= c
    requires Nondecreasing(times) && times != []
    ensures ExpiringDecisions(None, c, r, ttl, times) == Decisions(None, c, r, times)
    ensures ExpiringDecisions(None, c, r, ttl, times)
         == BucketRuns.Decisions(T.Fresh(c, r, times[0] * 1_000_000), InNanoseconds(times))
  {
    forall k | 0 <= k < |times|
      ensures ExpiringDecisions(None, c, r, ttl, times)[k] == Decisions(None, c, r, times)[k]
    {
      ExpiryIsInvisible(c, r, ttl, times, k);
    }
    ScriptRunIsBucketRun(None, c, r, times);
  }

  /** A burst, a silence of exactly the ttl, and a second burst. */
  function BurstSilenceBurst(n: nat, ttl: nat): (times: seq<int>)
    ensures |times| == 2 * n && Nondecreasing(times)
  {
    AtOnce(0, n) + AtOnce(ttl * 1000, n)
  }

  /** What a stored bucket of capacity n holds after k calls of a burst at `at`. */
  function InBurst(n: nat, k: nat, at: int): Stored
    requires k <= n
  {
    if k == 0 then None else Some(((n - k) as real, at))
  }

  lemma OneOfBurst(n: nat, r: real, k: nat, at: int)
    requires k < n
    ensures R.Allows(InBurst(n, k, at), n as real, r, at)
    ensures R.NextBucket(InBurst(n, k, at), n as real, r, at) == InBurst(n, k + 1, at)
  {
    assert (at - at) as real / 1000.0 * r == 0.0;
    assert R.Refilled(InBurst(n, k, at), n as real, r, at) == (n - k) as real;
  }

  /** The bucket that call k of the two bursts meets when keys expire. */
  function MetInBursts(n: nat, ttl: nat, k: nat): Stored
    requires k < 2 * n
  {
    if k < n then InBurst(n, k, 0) else InBurst(n, k - n, ttl * 1000)
  }

  lemma NextInBursts(n: nat, r: real, ttl: nat, k: nat)
    requires n >= 1 && ttl >= 1 && k + 1 < 2 * n
    ensures var times, met := BurstSilenceBurst(n, ttl), MetInBursts(n, ttl, k);
            Surviving(R.NextBucket(met, n as real, r, times[k]), ttl, times[k + 1]) == MetInBursts(n, ttl, k + 1)
  {
    if k < n {
      OneOfBurst(n, r, k, 0);
    } else {
      OneOfBurst(n, r, k - n, ttl * 1000);
    }
  }

  lemma MetInBurstsAllowed(n: nat, r: real, ttl: nat, k: nat)
    requires k < 2 * n
    ensures R.Allows(MetInBursts(n, ttl, k), n as real, r, BurstSilenceBurst(n, ttl)[k])
  {
    if k < n {
      OneOfBurst(n, r, k, 0);
    } else {
      OneOfBurst(n, r, k - n, ttl * 1000);
    }
  }

  /** With expiry both bursts are served in full. */
  lemma {:induction false} ExpiryServesBothBursts(n: nat, r: real, ttl: nat, k: nat)
    requires n >= 1 && ttl >= 1 && k < 2 * n
    ensures MetAt(None, n as real, r, ttl, BurstSilenceBurst(n, ttl), k) == MetInBursts(n, ttl, k)
    ensures ExpiringDecisions(None, n as real, r, ttl, BurstSilenceBurst(n, ttl))[k]
  {
    hide R.NextBucket, R.Allows, MetInBursts, BurstSilenceBurst, MetAt, Surviving;
    MetInBurstsAllowed(n, r, ttl, k);
    if k > 0 {
      ExpiryServesBothBursts(n, r, ttl, k - 1);
      NextInBursts(n, r, ttl, k - 1);
      MetNext(None, n as real, r, ttl, BurstSilenceBurst(n, ttl), k - 1);
    } else {
      NothingMet(n, r, ttl);
    }
  }

  lemma NothingMet(n: nat, r: real, ttl: nat)
    requires n >= 1
    ensures MetInBursts(n, ttl, 0) == None
    ensures MetAt(None, n as real, r, ttl, BurstSilenceBurst(n, ttl), 0) == None
  {
  }

  lemma {:induction false} AllAdmitted(adm: seq<bool>, k: nat)
    requires k <= |adm| && forall j :: 0 <= j < k ==> adm[j]
    ensures Count(adm, 0, k) == k
  {
    if k > 0 {
      AllAdmitted(adm, k - 1);
    }
  }

  /** Without it they cannot be, when the ttl is too short to refill the bucket. */
  lemma ShortTtlIsVisible(n: nat, r: real, ttl: nat)
    requires n >= 1 && ttl >= 1 && r * ttl as real < n as real
    ensures var times := BurstSilenceBurst(n, ttl);
            ExpiringDecisions(None, n as real, r, ttl, times) != Decisions(None, n as real, r, times)
  {
    hide StoredAt, ExpiringAt, MetAt, R.Allows;
    var times := BurstSilenceBurst(n, ttl);
    var with, without := ExpiringDecisions(None, n as real, r, ttl, times), Decisions(None, n as real, r, times);
    forall k | 0 <= k < |with|
      ensures with[k]
    {
      ExpiryServesBothBursts(n, r, ttl, k);
    }
    if with == without {
      AllAdmitted(without, 2 * n);
      BurstsWithinRefill(n, r, ttl);
      assert false;
    }
  }

  lemma BurstsWithinRefill(n: nat, r: real, ttl: nat)
    requires n >= 1 && ttl >= 1 && Decisions(None, n as real, r, BurstSilenceBurst(n, ttl))[2 * n - 1]
    ensures Count(Decisions(None, n as real, r, BurstSilenceBurst(n, ttl)), 0, 2 * n) as real
         <= n as real + r * ttl as real
  {
    hide StoredAt, R.Allows, Decisions;
    var times := BurstSilenceBurst(n, ttl);
    SharedBucketConserves(None, n as real, r, times, 0, 2 * n - 1);
    assert (times[2 * n - 1] - times[0]) as real / 1000.0 == ttl as real;
  }

  /** For a whole burst the condition is exact. */
  lemma ExpiryInvisibleExactly(n: nat, r: real, ttl: nat)
    requires n >= 1 && r >= 0.0 && ttl >= 1
    ensures r * ttl as real >= n as real
       <==> forall times :: Nondecreasing(times) ==>
              ExpiringDecisions(None, n as real, r, ttl, times) == Decisions(None, n as real, r, times)
  {
    if r * ttl as real >= n as real {
      forall times | Nondecreasing(times)
        ensures ExpiringDecisions(None, n as real, r, ttl, times) == Decisions(None, n as real, r, times)
      {
        if times != [] {
          ExpiringRunIsBucketRun(n as real, r, ttl, times);
        }
      }
    } else {
      ShortTtlIsVisible(n, r, ttl);
    }
  }
}
