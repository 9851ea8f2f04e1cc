/** The counts kept in Redis, against the decisions the requests of all instances get. */
module RedisCounts {
  import Configs
  import opened Managers
  import opened RedisProtocol
  import opened RedisStores
  import opened Threads
  import opened Wrappers

  /** The requests of this client that have been told so and are still to be counted. */
  function Uncounted(s: System, id: string, allowed: bool): nat {
    CountAt(s.threads, Decided(id, allowed))
  }

  /** The step loses a count: the counts expire, or a count cannot be written. */
  predicate Loses(s: System, step: Step, id: string) {
    || (step.ExpireStats? && step.id == id)
    || (step.Abandon? && PcOf(s, step.t).Decided? && PcOf(s, step.t).id == id)
  }

  ghost predicate NothingLost(s: System, steps: seq<Step>, id: string)
    requires ValidRun(s, steps)
    decreases steps
  {
    steps == [] || (!Loses(s, steps[0], id) && NothingLost(After(s, steps[0]), steps[1..], id))
  }

  /** The number of the client's requests that are told so. */
  function SaidIn(s: System, steps: seq<Step>, id: string, allowed: bool): nat
    requires ValidRun(s, steps)
    decreases steps
  {
    if steps == [] then
      0
    else
      (if Says(s, steps[0], id, allowed) then 1 else 0) + SaidIn(After(s, steps[0]), steps[1..], id, allowed)
  }

  /** The steps that change a client's counts are those that count or remove them. */
  lemma StepOnStats(s: System, step: Step, id: string)
    requires Enabled(s, step) && !(step.ExpireStats? && step.id == id)
    ensures StoredStats(After(s, step).keys, id)
         == if step.Record? && PcOf(s, step.t).id == id then
              Recorded(StoredStats(s.keys, id), PcOf(s, step.t).allowed)
            else
              StoredStats(s.keys, id)
  {
    hide Recorded, Left, StoredStats, StoredBucket, StoredConfig, AfterScript, AfterCount, AfterWriteConfig;
    hide AfterDropState, AfterDropClient, DecisionFor;
    match step {
      case RunScript(t, _) =>
        var pc := PcOf(s, t);
        StatsUnderCommands(s.keys, pc.id, id, pc.cfg.burst, pc.cfg.rps, pc.now);
      case Record(t) =>
        StatsUnderCount(s.keys, PcOf(s, t).id, id, PcOf(s, t).allowed);
      case WriteConfig(_, other, cfg) =>
        StatsUnderConfig(s.keys, other, id, cfg);
      case DropState(t) =>
        StatsUnderCommands(s.keys, PcOf(s, t).id, id, 0.0, 0.0, 0);
      case DropClient(other) =>
        StatsUnderCommands(s.keys, other, id, 0.0, 0.0, 0);
      case Expire(other) =>
        StatsUnderExpiry(s.keys, other, id);
      case ExpireStats(other) =>
        StatsUnderExpiry(s.keys, other, id);
      case _ =>
    }
  }

  lemma StatsUnderCommands(keys: Keyspace, id: string, other: string, c: real, r: real, now: int)
    ensures StoredStats(AfterScript(keys, id, c, r, now), other) == StoredStats(keys, other)
    ensures StoredStats(AfterDropState(keys, id), other) == StoredStats(keys, other)
    ensures StoredStats(AfterDropClient(keys, id), other) == StoredStats(keys, other)
  {
    KeysNeverCollide(id, other);
    KeysNeverCollide(other, id);
  }

  lemma StatsUnderCount(keys: Keyspace, id: string, other: string, allowed: bool)
    ensures StoredStats(AfterCount(keys, id, allowed), other)
         == if id == other then Recorded(StoredStats(keys, other), allowed) else StoredStats(keys, other)
  {
    KeysNeverCollide(id, other);
  }

  lemma StatsUnderConfig(keys: Keyspace, id: string, other: string, cfg: Configs.Config)
    ensures StoredStats(AfterWriteConfig(keys, id, cfg), other) == StoredStats(keys, other)
  {
    KeysNeverCollide(id, other);
    KeysNeverCollide(other, id);
  }

  lemma StatsUnderExpiry(keys: Keyspace, id: string, other: string)
    ensures StoredStats(keys - {StateKey(id)}, other) == StoredStats(keys, other)
    ensures id != other ==> StoredStats(keys - {StatsKey(id)}, other) == StoredStats(keys, other)
  {
    KeysNeverCollide(id, other);
    KeysNeverCollide(other, id);
  }

  /** The step's own request, if it has one, moves on; the others stay where they are. */
  lemma StepOnThreads(s: System, step: Step, id: string, allowed: bool)
    requires Enabled(s, step) && !Loses(s, step, id)
    ensures Uncounted(After(s, step), id, allowed)
            + (if step.Record? && PcOf(s, step.t) == Decided(id, allowed) then 1 else 0)
         == Uncounted(s, id, allowed) + if Says(s, step, id, allowed) then 1 else 0
  {
    hide CountAt, DecisionFor, AfterScript, AfterCount, AfterWriteConfig, AfterDropState, AfterDropClient;
    if step.DropClient? || step.Expire? || step.ExpireStats? {
      assert After(s, step).threads == s.threads;
    } else {
      CountWithout(s.threads, step.t, Decided(id, allowed));
      CountMoved(s.threads, step.t, PcOf(After(s, step), step.t), Decided(id, allowed));
    }
  }

  lemma OneCounted(stats: ClientStats, a: bool, allowed: bool)
    ensures CountOf(Recorded(stats, a), allowed) == CountOf(stats, allowed) + if a == allowed then 1 else 0
  {
  }

  /**
   Every decision is counted once: as long as the counts do not expire and no count fails, what is
   counted and what is still to be counted grow by exactly what the requests are told.
   */
  lemma {:induction false} EveryDecisionIsCountedOnce(s: System, steps: seq<Step>, id: string, allowed: bool)
    requires ValidRun(s, steps) && NothingLost(s, steps, id)
    ensures CountOf(StoredStats(Run(s, steps).keys, id), allowed) + Uncounted(Run(s, steps), id, allowed)
         == CountOf(StoredStats(s.keys, id), allowed) + Uncounted(s, id, allowed) + SaidIn(s, steps, id, allowed)
    decreases steps
  {
    hide After, Enabled, StoredStats, CountOf, Recorded, Uncounted, Says;
    if steps != [] {
      var step, s' := steps[0], After(s, steps[0]);
      StepOnStats(s, step, id);
      StepOnThreads(s, step, id, allowed);
      RecordIsDecided(s, step);
      if step.Record? {
        OneCounted(StoredStats(s.keys, id), PcOf(s, step.t).allowed, allowed);
      }
      EveryDecisionIsCountedOnce(s', steps[1..], id, allowed);
    }
  }

  lemma RecordIsDecided(s: System, step: Step)
    requires Enabled(s, step)
    ensures step.Record? ==> PcOf(s, step.t).Decided?
  {
  }

  /** From an empty keyspace on, then, the counts are the numbers of decisions. */
  lemma CountsAreDecisions(steps: seq<Step>, id: string, allowed: bool)
    requires ValidRun(System(map[], map[]), steps) && NothingLost(System(map[], map[]), steps, id)
    ensures var s' := Run(System(map[], map[]), steps);
            CountOf(StoredStats(s'.keys, id), allowed) + Uncounted(s', id, allowed)
            == SaidIn(System(map[], map[]), steps, id, allowed)
  {
    EveryDecisionIsCountedOnce(System(map[], map[]), steps, id, allowed);
    assert At<Pc>(map[], Decided(id, allowed)) == {};
  }

  /** What the requests are told is what is granted to them: the ALLOWs are those of AllowCount. */
  lemma {:induction false} AllowsAreSaid(s: System, steps: seq<Step>, id: string)
    requires ValidRun(s, steps)
    ensures SaidIn(s, steps, id, true) == AllowCount(s, steps, id)
    decreases steps
  {
    hide After, Enabled, Says;
    if steps != [] {
      AllowsAreSaid(After(s, steps[0]), steps[1..], id);
    }
  }
}
