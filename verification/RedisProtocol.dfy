/**
 Many server instances on one Redis: the requests of all instances interleave freely, one Redis
 command or clock reading at a time.
 */
module RedisProtocol {
  import opened Configs
  import opened Durations
  import opened RedisStores
  import opened Wrappers
  import Admissions
  import RedisRuns

  /** How far a request has come. */
  datatype Pc =
    | Idle
    | HasConfig(id: string, cfg: Config)
    | HasClock(id: string, cfg: Config, now: int)
    | Decided(id: string, allowed: bool)
    | Configuring(id: string)

  datatype Step =
    | ReadConfig(t: nat, id: string, readable: bool)
    | ReadClock(t: nat, now: int)
    | RunScript(t: nat, delivery: Delivery)
    | Record(t: nat)
    | WriteConfig(t: nat, id: string, cfg: Config)
    | DropState(t: nat)
    | DropClient(id: string)
    | Abandon(t: nat)
    | Expire(id: string)
    | ExpireStats(id: string)

  /** The shared keyspace and every request in progress, on whatever instance. */
  datatype System = System(keys: Keyspace, threads: map<nat, Pc>)

  function PcOf(s: System, t: nat): Pc {
    if t in s.threads then s.threads[t] else Idle
  }

  predicate Enabled(s: System, step: Step) {
    match step
    case ReadConfig(t, _, _) => PcOf(s, t).Idle?
    case ReadClock(t, _) => PcOf(s, t).HasConfig?
    case RunScript(t, _) => PcOf(s, t).HasClock?
    case Record(t) => PcOf(s, t).Decided?
    case WriteConfig(t, _, cfg) => PcOf(s, t).Idle? && Valid(cfg)
    case DropState(t) => PcOf(s, t).Configuring?
    case DropClient(_) => true
    case Abandon(_) => true
    case Expire(_) => true
    case ExpireStats(_) => true
  }

  function Moved(s: System, t: nat, pc: Pc): System {
    s.(threads := s.threads[t := pc])
  }

  /** The bucket the script of thread t meets. */
  function Met(s: System, t: nat): Option<(real, int)>
    requires PcOf(s, t).HasClock?
  {
    StoredBucket(s.keys, PcOf(s, t).id)
  }

  predicate Granted(s: System, t: nat)
    requires PcOf(s, t).HasClock?
  {
    var pc := PcOf(s, t);
    Allows(Met(s, t), pc.cfg.burst, pc.cfg.rps, pc.now)
  }

  /** The decision thread t returns if its script call fares like this. */
  function DecisionFor(s: System, t: nat, delivery: Delivery): Decision
    requires PcOf(s, t).HasClock?
  {
    Answer(Met(s, t), PcOf(s, t).cfg, PcOf(s, t).now, delivery)
  }

  function After(s: System, step: Step): System
    requires Enabled(s, step)
  {
    match step
    case ReadConfig(t, id, readable) => Moved(s, t, HasConfig(id, ConfigInForce(s.keys, id, readable)))
    case ReadClock(t, now) => Moved(s, t, HasClock(PcOf(s, t).id, PcOf(s, t).cfg, now))
    case RunScript(t, delivery) =>
      var pc := PcOf(s, t);
      Moved(
        if delivery.NotRun? then s else s.(keys := AfterScript(s.keys, pc.id, pc.cfg.burst, pc.cfg.rps, pc.now)),
        t,
        Decided(pc.id, DecisionFor(s, t, delivery).allowed))
    case Record(t) => Moved(s.(keys := AfterCount(s.keys, PcOf(s, t).id, PcOf(s, t).allowed)), t, Idle)
    case WriteConfig(t, id, cfg) => Moved(s.(keys := AfterWriteConfig(s.keys, id, cfg)), t, Configuring(id))
    case DropState(t) => Moved(s.(keys := AfterDropState(s.keys, PcOf(s, t).id)), t, Idle)
    case DropClient(id) => s.(keys := AfterDropClient(s.keys, id))
    case Abandon(t) => Moved(s, t, Idle)
    case Expire(id) => s.(keys := s.keys - {StateKey(id)})
    case ExpireStats(id) => s.(keys := s.keys - {StatsKey(id)})
  }

  ghost predicate ValidRun(s: System, steps: seq<Step>)
    decreases steps
  {
    steps == [] || (Enabled(s, steps[0]) && ValidRun(After(s, steps[0]), steps[1..]))
  }

  /** The step runs the script for this client, whether or not the reply arrives. */
  predicate RunsScript(s: System, step: Step, id: string)
    requires Enabled(s, step)
  {
    step.RunScript? && !step.delivery.NotRun? && PcOf(s, step.t).id == id
  }

  /** The step runs the script for this client and takes a token. */
  predicate Grants(s: System, step: Step, id: string)
    requires Enabled(s, step)
  {
    RunsScript(s, step, id) && Granted(s, step.t)
  }

  /** The step ends with a request of this client being told this. */
  predicate Says(s: System, step: Step, id: string, allowed: bool)
    requires Enabled(s, step)
  {
    step.RunScript? && PcOf(s, step.t).id == id && DecisionFor(s, step.t, step.delivery).allowed == allowed
  }

  predicate SaysAllow(s: System, step: Step, id: string)
    requires Enabled(s, step)
  {
    Says(s, step, id, true)
  }

  /** The step removes the client's bucket: reconfiguration, removal or expiry. */
  predicate Deletes(s: System, step: Step, id: string)
    requires Enabled(s, step)
  {
    StoredBucket(s.keys, id).Some? && StoredBucket(After(s, step).keys, id).None?
  }

  /** The number of tokens the scripts of a run take from this client's bucket. */
  function GrantCount(s: System, steps: seq<Step>, id: string): nat
    requires ValidRun(s, steps)
    decreases steps
  {
    if steps == [] then
      0
    else
      (if Grants(s, steps[0], id) then 1 else 0) + GrantCount(After(s, steps[0]), steps[1..], id)
  }

  /** The number of requests of this client that are told ALLOW. */
  function AllowCount(s: System, steps: seq<Step>, id: string): nat
    requires ValidRun(s, steps)
    decreases steps
  {
    if steps == [] then
      0
    else
      (if SaysAllow(s, steps[0], id) then 1 else 0)
      + AllowCount(After(s, steps[0]), steps[1..], id)
  }

  /** The number of times the client's bucket disappears. */
  function DeletionCount(s: System, steps: seq<Step>, id: string): nat
    requires ValidRun(s, steps)
    decreases steps
  {
    if steps == [] then
      0
    else
      (if Deletes(s, steps[0], id) then 1 else 0) + DeletionCount(After(s, steps[0]), steps[1..], id)
  }

  /** The clock reading from which later ones may start, once the step has been taken. */
  function Clock(s: System, step: Step, id: string, lo: int): int
    requires Enabled(s, step)
  {
    if RunsScript(s, step, id) then PcOf(s, step.t).now else lo
  }

  /**
   The scripts for this client see readings that never go back in script order and lie in
   [lo, hi], and parameters of at most c tokens and r tokens a second.
   */
  ghost predicate Bounded(s: System, steps: seq<Step>, id: string, c: real, r: real, lo: int, hi: int)
    requires ValidRun(s, steps)
    decreases steps
  {
    steps == [] ||
    (&& (RunsScript(s, steps[0], id) ==>
           var pc := PcOf(s, steps[0].t);
           lo <= pc.now <= hi && pc.cfg.burst <= c && pc.cfg.rps <= r)
     && Bounded(After(s, steps[0]), steps[1..], id, c, r, Clock(s, steps[0], id, lo), hi))
  }

  /** The tokens r would produce in d milliseconds. */
  function Produced(r: real, d: int): real {
    r * (d as real / 1000.0)
  }

  lemma ProducedAddsUp(r: real, d: int, e: int)
    ensures Produced(r, d + e) == Produced(r, d) + Produced(r, e)
  {
    var x, y := d as real / 1000.0, e as real / 1000.0;
    assert (d + e) as real / 1000.0 == x + y;
    assert r * (x + y) == r * x + r * y;
  }

  lemma ProducedOrder(r: real, r': real, d: int)
    requires r <= r' && d >= 0
    ensures Produced(r, d) <= Produced(r', d)
    ensures r >= 0.0 ==> Produced(r, d) >= 0.0
  {
    var x := d as real / 1000.0;
    ScaleOrder(x, r, r');
    if r >= 0.0 {
      ScaleOrder(r, 0.0, x);
    }
  }

  /** The most a script at `lo` could find in the bucket. */
  function Available(b: Option<(real, int)>, c: real, r: real, lo: int): real {
    if b.None? then c else Max(0.0, Min(c, b.value.0 + Produced(r, lo - b.value.1)))
  }

  lemma AvailableWithinCapacity(b: Option<(real, int)>, c: real, r: real, lo: int)
    requires c >= 0.0
    ensures Available(b, c, r, lo) <= c
  {
  }

  lemma CappedSum(t: real, burst: real, c: real, x: real, y: real)
    requires t <= burst <= c && t <= x + y && y >= 0.0
    ensures t <= Max(0.0, Min(c, x)) + y
  {
  }

  /** A refill finds no more than was available before plus what has been produced since. */
  lemma RefillWithinAvailable(b: Option<(real, int)>, cfg: Config, now: int, c: real, r: real, lo: int)
    requires c >= 0.0 && r >= 0.0 && cfg.burst <= c && cfg.rps <= r
    requires lo <= now && (b.Some? ==> b.value.1 <= lo)
    ensures Refilled(b, cfg.burst, cfg.rps, now) <= Available(b, c, r, lo) + Produced(r, now - lo)
  {
    ProducedOrder(r, r, now - lo);
    var t := Refilled(b, cfg.burst, cfg.rps, now);
    if b.Some? {
      var tokens, ts := b.value.0, b.value.1;
      RefillIsProduced(b, cfg, now);
      ProducedOrder(cfg.rps, r, now - ts);
      ProducedAddsUp(r, lo - ts, now - lo);
      assert lo - ts + (now - lo) == now - ts;
      CappedSum(t, cfg.burst, c, tokens + Produced(r, lo - ts), Produced(r, now - lo));
    } else {
      assert (now - now) as real / 1000.0 * cfg.rps == 0.0;
    }
  }

  lemma RefillIsProduced(b: Option<(real, int)>, cfg: Config, now: int)
    requires b.Some?
    ensures Refilled(b, cfg.burst, cfg.rps, now) <= cfg.burst
    ensures Refilled(b, cfg.burst, cfg.rps, now) <= b.value.0 + Produced(cfg.rps, now - b.value.1)
  {
    assert (now - b.value.1) as real / 1000.0 * cfg.rps == Produced(cfg.rps, now - b.value.1);
  }

  /** What one script takes, plus what it leaves available, was available before. */
  lemma ScriptSpends(b: Option<(real, int)>, cfg: Config, now: int, c: real, r: real, lo: int)
    requires c >= 0.0 && r >= 0.0 && cfg.burst <= c && cfg.rps <= r
    requires lo <= now && (b.Some? ==> b.value.1 <= lo)
    ensures (if Allows(b, cfg.burst, cfg.rps, now) then 1.0 else 0.0)
            + Available(NextBucket(b, cfg.burst, cfg.rps, now), c, r, now)
         <= Available(b, c, r, lo) + Produced(r, now - lo)
  {
    RefillWithinAvailable(b, cfg, now, c, r, lo);
    ProducedOrder(r, r, now - lo);
    assert Produced(r, now - now) == 0.0;
    assert Refilled(b, cfg.burst, cfg.rps, now) <= cfg.burst;
  }

  /** What a step does to one client's bucket. */
  lemma StepOnBucket(s: System, step: Step, id: string)
    requires Enabled(s, step)
    ensures var b, b' := StoredBucket(s.keys, id), StoredBucket(After(s, step).keys, id);
            if RunsScript(s, step, id) then
              var pc := PcOf(s, step.t);
              b' == NextBucket(b, pc.cfg.burst, pc.cfg.rps, pc.now)
            else
              b' == b || b' == None
  {
    hide NextBucket, Left;
    match step {
      case RunScript(t, _) =>
        var pc := PcOf(s, t);
        OneOrOther(s.keys, pc.id, id, pc.cfg, pc.now, false);
      case Record(t) =>
        OneOrOther(s.keys, PcOf(s, t).id, id, DEFAULT_CONFIG, 0, PcOf(s, t).allowed);
      case WriteConfig(_, other, cfg) =>
        OneOrOther(s.keys, other, id, cfg, 0, false);
      case DropState(t) =>
        OneOrOther(s.keys, PcOf(s, t).id, id, DEFAULT_CONFIG, 0, false);
      case DropClient(other) =>
        OneOrOther(s.keys, other, id, DEFAULT_CONFIG, 0, false);
      case Expire(other) =>
        OneOrOther(s.keys, other, id, DEFAULT_CONFIG, 0, false);
      case ExpireStats(other) =>
        KeysNeverCollide(id, other);
      case _ =>
    }
  }

  lemma OneOrOther(keys: Keyspace, id: string, other: string, cfg: Config, now: int, allowed: bool)
    ensures id != other ==>
              && StoredBucket(AfterScript(keys, id, cfg.burst, cfg.rps, now), other) == StoredBucket(keys, other)
              && StoredBucket(AfterDropState(keys, id), other) == StoredBucket(keys, other)
              && StoredBucket(AfterDropClient(keys, id), other) == StoredBucket(keys, other)
    ensures StoredBucket(AfterWriteConfig(keys, id, cfg), other) == StoredBucket(keys, other)
    ensures StoredBucket(AfterCount(keys, id, allowed), other) == StoredBucket(keys, other)
    ensures StoredBucket(AfterScript(keys, id, cfg.burst, cfg.rps, now), id)
         == NextBucket(StoredBucket(keys, id), cfg.burst, cfg.rps, now)
    ensures StoredBucket(AfterDropState(keys, id), id) == None
    ensures StoredBucket(AfterDropClient(keys, id), id) == None
  {
    OwnCommands(keys, id, cfg, now, allowed);
    if id != other {
      OtherClientsUntouched(keys, id, other, cfg, now, allowed);
    }
  }

  /**
   The bound step by step: a grant is paid for by what was available, a deletion makes a whole
   capacity available again, and every other step, of this client or another, changes nothing.
   */
  lemma StepSpends(s: System, step: Step, id: string, c: real, r: real, lo: int)
    requires Enabled(s, step) && c >= 0.0 && r >= 0.0
    requires StoredBucket(s.keys, id).Some? ==> StoredBucket(s.keys, id).value.1 <= lo
    requires RunsScript(s, step, id) ==>
               var pc := PcOf(s, step.t);
               lo <= pc.now && pc.cfg.burst <= c && pc.cfg.rps <= r
    ensures var b, b' := StoredBucket(s.keys, id), StoredBucket(After(s, step).keys, id);
            var lo' := Clock(s, step, id, lo);
            && lo <= lo' && (b'.Some? ==> b'.value.1 <= lo')
            && (if Grants(s, step, id) then 1.0 else 0.0) + Available(b', c, r, lo')
               <= Available(b, c, r, lo) + Produced(r, lo' - lo) + (if Deletes(s, step, id) then c else 0.0)
  {
    StepOnBucket(s, step, id);
    if RunsScript(s, step, id) {
      var pc := PcOf(s, step.t);
      ScriptSpends(StoredBucket(s.keys, id), pc.cfg, pc.now, c, r, lo);
    } else {
      assert Produced(r, lo - lo) == 0.0;
    }
  }

  /** d times c. */
  function Repeated(c: real, d: nat): real {
    if d == 0 then 0.0 else c + Repeated(c, d - 1)
  }

  lemma {:induction false} RepeatedIsProduct(c: real, d: nat)
    ensures Repeated(c, d) == d as real * c
  {
    if d > 0 {
      RepeatedIsProduct(c, d - 1);
      assert d as real * c == (d - 1) as real * c + c;
    }
  }

  lemma {:induction false} GrantsBoundedByAvailable(
      s: System, steps: seq<Step>, id: string, c: real, r: real, lo: int, hi: int)
    requires ValidRun(s, steps) && Bounded(s, steps, id, c, r, lo, hi)
    requires c >= 0.0 && r >= 0.0 && lo <= hi
    requires StoredBucket(s.keys, id).Some? ==> StoredBucket(s.keys, id).value.1 <= lo
    ensures GrantCount(s, steps, id) as real
         <= Available(StoredBucket(s.keys, id), c, r, lo) + Produced(r, hi - lo)
            + Repeated(c, DeletionCount(s, steps, id))
    decreases steps
  {
    if steps == [] {
      ProducedOrder(r, r, hi - lo);
    } else {
      hide After, Grants, Deletes, RunsScript, Available, Produced;
      var step, s', rest := steps[0], After(s, steps[0]), steps[1..];
      var lo' := Clock(s, step, id, lo);
      StepSpends(s, step, id, c, r, lo);
      GrantsBoundedByAvailable(s', rest, id, c, r, lo', hi);
      ProducedAddsUp(r, lo' - lo, hi - lo');
      assert lo' - lo + (hi - lo') == hi - lo;
    }
  }

  /** A request is told ALLOW exactly if its script took a token and the reply arrived. */
  lemma AllowIsGrant(s: System, step: Step, id: string)
    requires Enabled(s, step)
    ensures SaysAllow(s, step, id) <==> Grants(s, step, id) && step.delivery.Answered?
  {
  }

  /** So no more are told ALLOW than tokens are taken. */
  lemma {:induction false} RepliesAreGrants(s: System, steps: seq<Step>, id: string)
    requires ValidRun(s, steps)
    ensures AllowCount(s, steps, id) <= GrantCount(s, steps, id)
    decreases steps
  {
    hide After, Enabled, Grants, SaysAllow;
    if steps != [] {
      AllowIsGrant(s, steps[0], id);
      RepliesAreGrants(After(s, steps[0]), steps[1..], id);
    }
  }

  /**
   Safety under interleaving: in every run of every number of instances, with stale and default
   configurations, half-finished reconfigurations, expiries and lost replies, the requests of one
   client that are told ALLOW over T milliseconds number at most (D + 1) * c + r * T, where D counts
   the disappearances of its bucket and c and r bound the parameters passed to the script.
   */
  lemma AllowRepliesBounded(s: System, steps: seq<Step>, id: string, c: real, r: real, lo: int, hi: int)
    requires ValidRun(s, steps) && Bounded(s, steps, id, c, r, lo, hi)
    requires c >= 0.0 && r >= 0.0 && lo <= hi
    requires StoredBucket(s.keys, id).Some? ==> StoredBucket(s.keys, id).value.1 <= lo
    ensures AllowCount(s, steps, id) as real
         <= (DeletionCount(s, steps, id) + 1) as real * c + r * ((hi - lo) as real / 1000.0)
  {
    hide GrantCount, AllowCount, DeletionCount, Available, Bounded, ValidRun, StoredBucket;
    assert Produced(r, hi - lo) == r * ((hi - lo) as real / 1000.0);
    hide Produced;
    RepliesAreGrants(s, steps, id);
    GrantsBoundedByAvailable(s, steps, id, c, r, lo, hi);
    AvailableWithinCapacity(StoredBucket(s.keys, id), c, r, lo);
    RepeatedIsProduct(c, DeletionCount(s, steps, id) + 1);
  }

  /** The readings of the scripts run for this client, in the order they run. */
  function ReadingsOf(s: System, steps: seq<Step>, id: string): seq<int>
    requires ValidRun(s, steps)
    decreases steps
  {
    if steps == [] then
      []
    else
      (if RunsScript(s, steps[0], id) then [PcOf(s, steps[0].t).now] else [])
      + ReadingsOf(After(s, steps[0]), steps[1..], id)
  }

  /** Which of them took a token. */
  function GrantsOf(s: System, steps: seq<Step>, id: string): (grants: seq<bool>)
    requires ValidRun(s, steps)
    ensures |grants| == |ReadingsOf(s, steps, id)|
    decreases steps
  {
    if steps == [] then
      []
    else
      (if RunsScript(s, steps[0], id) then [Grants(s, steps[0], id)] else [])
      + GrantsOf(After(s, steps[0]), steps[1..], id)
  }

  /** The client's bucket never disappears, and every script for it has these parameters. */
  ghost predicate Settled(s: System, steps: seq<Step>, id: string, c: real, r: real)
    requires ValidRun(s, steps)
    decreases steps
  {
    steps == [] ||
    (&& !Deletes(s, steps[0], id)
     && (RunsScript(s, steps[0], id) ==>
           PcOf(s, steps[0].t).cfg.burst == c && PcOf(s, steps[0].t).cfg.rps == r)
     && Settled(After(s, steps[0]), steps[1..], id, c, r))
  }

  lemma SettledStep(s: System, step: Step, id: string, c: real, r: real)
    requires Enabled(s, step) && !Deletes(s, step, id)
    requires RunsScript(s, step, id) ==> PcOf(s, step.t).cfg.burst == c && PcOf(s, step.t).cfg.rps == r
    ensures var b, b' := StoredBucket(s.keys, id), StoredBucket(After(s, step).keys, id);
            if RunsScript(s, step, id) then
              && b' == NextBucket(b, c, r, PcOf(s, step.t).now)
              && Grants(s, step, id) == Allows(b, c, r, PcOf(s, step.t).now)
            else
              b' == b
  {
    hide NextBucket, Allows, After;
    StepOnBucket(s, step, id);
  }

  /** Between two deletions the scripts of all instances are one run against one bucket. */
  lemma {:induction false} ScriptsAreOneRun(s: System, steps: seq<Step>, id: string, c: real, r: real)
    requires ValidRun(s, steps) && Settled(s, steps, id, c, r)
    ensures GrantsOf(s, steps, id)
         == RedisRuns.Decisions(StoredBucket(s.keys, id), c, r, ReadingsOf(s, steps, id))
    decreases steps
  {
    hide After, Enabled, RunsScript, Grants, Deletes, NextBucket, Allows, StoredBucket, RedisRuns.StoredAt;
    if steps != [] {
      var step, s', rest := steps[0], After(s, steps[0]), steps[1..];
      SettledStep(s, step, id, c, r);
      ScriptsAreOneRun(s', rest, id, c, r);
      if RunsScript(s, step, id) {
        ScriptIsRunScript(s, step, id);
        RedisRuns.DecisionsFromFirst(
          StoredBucket(s.keys, id), c, r, PcOf(s, step.t).now, ReadingsOf(s', rest, id));
      } else {
        assert ReadingsOf(s, steps, id) == ReadingsOf(s', rest, id);
        assert GrantsOf(s, steps, id) == GrantsOf(s', rest, id);
      }
    }
  }

  lemma ScriptIsRunScript(s: System, step: Step, id: string)
    requires Enabled(s, step) && RunsScript(s, step, id)
    ensures step.RunScript? && PcOf(s, step.t).HasClock?
  {
  }

  /**
   Conservation in every interleaving, for readings that reach the script in any order: between two
   deletions, scripts i..k of one client ending in one that takes a token take at most
   c + r * (now_k - now_i).
   */
  lemma GrantsConserve(s: System, steps: seq<Step>, id: string, c: real, r: real, i: nat, k: nat)
    requires ValidRun(s, steps) && Settled(s, steps, id, c, r)
    requires i <= k < |ReadingsOf(s, steps, id)|
    ensures var grants, now := GrantsOf(s, steps, id), ReadingsOf(s, steps, id);
            grants[k] ==> Admissions.Count(grants, i, k + 1) as real <= c + r * ((now[k] - now[i]) as real / 1000.0)
  {
    hide GrantsOf, ReadingsOf, Settled, ValidRun, RedisRuns.Decisions;
    ScriptsAreOneRun(s, steps, id, c, r);
    if GrantsOf(s, steps, id)[k] {
      RedisRuns.SharedBucketConserves(StoredBucket(s.keys, id), c, r, ReadingsOf(s, steps, id), i, k);
    }
  }

  function Run(s: System, steps: seq<Step>): System
    requires ValidRun(s, steps)
    decreases steps
  {
    if steps == [] then s else Run(After(s, steps[0]), steps[1..])
  }

  lemma RunOne(s: System, step: Step, rest: seq<Step>)
    requires Enabled(s, step) && ValidRun(After(s, step), rest)
    ensures ValidRun(s, [step] + rest) && Run(s, [step] + rest) == Run(After(s, step), rest)
  {
    assert ([step] + rest)[1..] == rest;
  }

  /** The steps of RedisStore.Allow; a count that cannot be written is given up. */
  function RequestSteps(t: nat, id: string, readable: bool, now: int, delivery: Delivery, counted: bool): seq<Step> {
    [ReadConfig(t, id, readable), ReadClock(t, now), RunScript(t, delivery), if counted then Record(t) else Abandon(t)]
  }

  /** The steps of RedisStore.Allow, with no other instance in between, do what its contract says. */
  lemma UninterruptedAllow(
      s: System, t: nat, id: string, readable: bool, now: int, delivery: Delivery, counted: bool)
    requires PcOf(s, t).Idle?
    ensures ValidRun(s, RequestSteps(t, id, readable, now, delivery, counted))
    ensures var cfg := ConfigInForce(s.keys, id, readable);
            var d := Answer(StoredBucket(s.keys, id), cfg, now, delivery);
            var met := if delivery.NotRun? then s.keys else AfterScript(s.keys, id, cfg.burst, cfg.rps, now);
            Run(s, RequestSteps(t, id, readable, now, delivery, counted)).keys
            == if counted then AfterCount(met, id, d.allowed) else met
  {
    hide AfterScript, AfterCount, Answer, ConfigInForce, StoredBucket;
    var steps := RequestSteps(t, id, readable, now, delivery, counted);
    var s1 := After(s, steps[0]);
    var s2 := After(s1, steps[1]);
    var s3 := After(s2, steps[2]);
    RunOne(s3, steps[3], []);
    RunOne(s2, steps[2], [steps[3]]);
    RunOne(s1, steps[1], [steps[2], steps[3]]);
    RunOne(s, steps[0], [steps[1], steps[2], steps[3]]);
    assert steps == [steps[0]] + [steps[1], steps[2], steps[3]];
    assert [steps[1], steps[2], steps[3]] == [steps[1]] + [steps[2], steps[3]];
    assert [steps[2], steps[3]] == [steps[2]] + [steps[3]];
    assert [steps[3]] == [steps[3]] + [];
  }

  /** The steps of RedisStore.SetConfig: both commands, or only the first when the second fails. */
  lemma UninterruptedSetConfig(s: System, t: nat, id: string, cfg: Config, finish: bool)
    requires PcOf(s, t).Idle? && Valid(cfg)
    ensures ValidRun(s, [WriteConfig(t, id, cfg), if finish then DropState(t) else Abandon(t)])
    ensures Run(s, [WriteConfig(t, id, cfg), if finish then DropState(t) else Abandon(t)]).keys
         == if finish then AfterDropState(AfterWriteConfig(s.keys, id, cfg), id)
            else AfterWriteConfig(s.keys, id, cfg)
  {
    hide AfterDropState, AfterWriteConfig;
    var steps := [WriteConfig(t, id, cfg), if finish then DropState(t) else Abandon(t)];
    RunOne(After(s, steps[0]), steps[1], []);
    RunOne(s, steps[0], [steps[1]]);
    assert steps == [steps[0]] + [steps[1]] && [steps[1]] == [steps[1]] + [];
  }
}
