/** The in-memory store: one limiter object per client, created on first use. */
module Managers {
  import opened Configs
  import opened Limiters
  import opened SlidingWindows
  import opened TokenBuckets
  import opened Wrappers

  datatype ClientStats = ClientStats(allowed: nat, denied: nat)

  const NO_STATS := ClientStats(0, 0)

  /** The contents of a manager: the meaning of its maps and of the limiter objects in them. */
  datatype ManagerState = ManagerState(
    configs: map<string, Config>,
    limiters: map<string, LimiterValue>,
    counts: map<string, ClientStats>)

  const EMPTY := ManagerState(map[], map[], map[])

  /** The configuration in force for a client. */
  function ConfigFor(configs: map<string, Config>, id: string): Config {
    if id in configs then configs[id] else DEFAULT_CONFIG
  }

  /** The limiter a request of this client meets; `created` is read if it has to be made. */
  function LimiterFor(m: ManagerState, id: string, created: int): LimiterValue {
    if id in m.limiters then m.limiters[id] else NewLimiter(ConfigFor(m.configs, id), created)
  }

  function StatsFor(counts: map<string, ClientStats>, id: string): ClientStats {
    if id in counts then counts[id] else NO_STATS
  }

  function Recorded(stats: ClientStats, allowed: bool): ClientStats {
    if allowed then stats.(allowed := stats.allowed + 1) else stats.(denied := stats.denied + 1)
  }

  function CountOf(stats: ClientStats, allowed: bool): nat {
    if allowed then stats.allowed else stats.denied
  }

  /** One client's limiter has moved on and its decision has been counted. */
  function AfterDecision(m: ManagerState, id: string, l: LimiterValue, allowed: bool): ManagerState {
    m.(limiters := m.limiters[id := l], counts := m.counts[id := Recorded(StatsFor(m.counts, id), allowed)])
  }

  function AfterAllow(m: ManagerState, id: string, created: int, now: int): ManagerState {
    var l := LimiterFor(m, id, created);
    AfterDecision(m, id, Limiters.Next(l, now), Limiters.Admits(l, now))
  }

  function AfterSetConfig(m: ManagerState, id: string, cfg: Config): ManagerState {
    if Valid(cfg) then m.(configs := m.configs[id := cfg], limiters := m.limiters - {id}) else m
  }

  function AfterRemove(m: ManagerState, id: string): ManagerState {
    m.(configs := m.configs - {id}, limiters := m.limiters - {id})
  }

  /** The persisted form of a manager; the counts are not part of it. */
  function SnapshotOf(m: ManagerState): PersistedState {
    PersistedState(m.configs, map id | id in m.limiters :: Save(m.limiters[id]))
  }

  /** The limiters a persisted state brings back; entries whose tag and fields disagree are dropped. */
  function LoadedLimiters(p: PersistedState): map<string, LimiterValue> {
    map id | id in p.limiters && Load(p.limiters[id]).Some? :: Load(p.limiters[id]).value
  }

  /** Every limiter a persisted state brings back is built for the configuration it brings back. */
  ghost predicate Consistent(p: PersistedState) {
    forall id :: id in LoadedLimiters(p) ==> BuiltFor(LoadedLimiters(p)[id], ConfigFor(p.configs, id))
  }

  function AfterRestore(m: ManagerState, p: PersistedState): ManagerState {
    m.(configs := p.configs, limiters := LoadedLimiters(p))
  }

  /** A live limiter object of either algorithm. */
  datatype Limiter = BucketObject(bucket: TokenBucket) | WindowObject(window: SlidingWindow)

  function ObjectOf(l: Limiter): object {
    match l
    case BucketObject(b) => b
    case WindowObject(w) => w
  }

  function ValueOf(l: Limiter): LimiterValue
    reads ObjectOf(l)
  {
    match l
    case BucketObject(b) => Bucket(b.State())
    case WindowObject(w) => Window(w.State())
  }

  /** The objects of a map of limiters. */
  ghost function Objects(limiters: map<string, Limiter>): set<object> {
    set id | id in limiters :: ObjectOf(limiters[id])
  }

  ghost predicate Distinct(limiters: map<string, Limiter>) {
    forall a, b :: a in limiters && b in limiters && a != b ==> ObjectOf(limiters[a]) != ObjectOf(limiters[b])
  }

  ghost function Values(limiters: map<string, Limiter>): map<string, LimiterValue>
    reads Objects(limiters)
  {
    map id | id in limiters :: ValueOf(limiters[id])
  }

  method MakeLimiter(cfg: Config, now: int) returns (l: Limiter)
    ensures fresh(ObjectOf(l)) && ValueOf(l) == NewLimiter(cfg, now)
  {
    if cfg.algorithm == ALGORITHM_SLIDING_WINDOW {
      var w := new SlidingWindow(cfg.burst, WindowFor(cfg), now);
      l := WindowObject(w);
    } else {
      var b := new TokenBucket(cfg.burst, cfg.rps, now);
      l := BucketObject(b);
    }
  }

  method AskLimiter(l: Limiter, now: int) returns (d: Decision)
    modifies ObjectOf(l)
    ensures ValueOf(l) == Limiters.Next(old(ValueOf(l)), now)
    ensures d == Decide(old(ValueOf(l)), now)
  {
    match l {
      case BucketObject(b) => d := b.Allow(now);
      case WindowObject(w) => d := w.Allow(now);
    }
  }

  lemma OneKeyChanged(
      before: map<string, LimiterValue>, after: map<string, LimiterValue>, id: string, l: LimiterValue)
    requires after.Keys == before.Keys + {id} && after[id] == l
    requires forall c :: c in before && c != id ==> after[c] == before[c]
    ensures after == before[id := l]
  {
  }

  class Manager {
    var configs: map<string, Config>
    var limiters: map<string, Limiter>
    var counts: map<string, ClientStats>

    /** Distinct clients own distinct limiters. */
    ghost predicate Owned()
      reads this
    {
      Distinct(limiters)
    }

    ghost function Contents(): ManagerState
      reads this, Objects(limiters)
    {
      ManagerState(configs, Values(limiters), counts)
    }

    constructor ()
      ensures Owned() && Contents() == EMPTY
    {
      configs := map[];
      limiters := map[];
      counts := map[];
    }

    /** Stores a valid configuration and discards the client's limiter. */
    method SetConfig(id: string, cfg: Config) returns (r: Result<(), ConfigError>)
      requires Owned()
      modifies this
      ensures Owned() && Objects(limiters) <= old(Objects(limiters))
      ensures Contents() == AfterSetConfig(old(Contents()), id, cfg)
      ensures r == Validate(cfg)
    {
      r := Validate(cfg);
      if r.Failure? {
        return;
      }
      configs := configs[id := cfg];
      limiters := limiters - {id};
    }

    method GetConfig(id: string) returns (r: Option<Config>)
      ensures r == if id in configs then Some(configs[id]) else None
    {
      if id in configs {
        r := Some(configs[id]);
      } else {
        r := None;
      }
    }

    method RemoveClient(id: string)
      requires Owned()
      modifies this
      ensures Owned() && Objects(limiters) <= old(Objects(limiters))
      ensures Contents() == AfterRemove(old(Contents()), id)
    {
      configs := configs - {id};
      limiters := limiters - {id};
    }

    /** The step under the manager's lock: find the client's limiter, or make and keep one. */
    method GetOrCreate(id: string, created: int) returns (l: Limiter)
      requires Owned()
      modifies this`limiters
      ensures Owned() && id in limiters && limiters[id] == l
      ensures limiters == old(limiters)[id := l]
      ensures id in old(limiters) ==> limiters == old(limiters)
      ensures id !in old(limiters) ==> fresh(ObjectOf(l)) && ValueOf(l) == NewLimiter(ConfigFor(configs, id), created)
    {
      var cfg := DEFAULT_CONFIG;
      if id in configs {
        cfg := configs[id];
      }
      if id in limiters {
        l := limiters[id];
      } else {
        l := MakeLimiter(cfg, created);
        limiters := limiters[id := l];
      }
    }

    /** The client's limiter decides, outside the manager's lock. */
    method Consult(id: string, created: int, now: int) returns (d: Decision)
      requires Owned()
      modifies this`limiters, Objects(limiters)
      ensures Owned() && fresh(Objects(limiters) - old(Objects(limiters)))
      ensures limiters.Keys == old(limiters.Keys) + {id}
      ensures forall c :: c in old(limiters) && c != id ==> ValueOf(limiters[c]) == old(ValueOf(limiters[c]))
      ensures ValueOf(limiters[id]) == Limiters.Next(LimiterFor(old(Contents()), id, created), now)
      ensures d == Decide(LimiterFor(old(Contents()), id, created), now)
    {
      hide Limiters.Next, Decide, NewLimiter;
      ghost var met := LimiterFor(Contents(), id, created);
      var l := GetOrCreate(id, created);
      assert ValueOf(l) == met;
      d := AskLimiter(l, now);
    }

    method Ask(id: string, created: int, now: int) returns (d: Decision)
      requires Owned()
      modifies this`limiters, Objects(limiters)
      ensures Owned() && fresh(Objects(limiters) - old(Objects(limiters)))
      ensures Values(limiters)
           == old(Values(limiters))[id := Limiters.Next(LimiterFor(old(Contents()), id, created), now)]
      ensures d == Decide(LimiterFor(old(Contents()), id, created), now)
    {
      ghost var before, met := Values(limiters), LimiterFor(Contents(), id, created);
      d := Consult(id, created, now);
      OneKeyChanged(before, Values(limiters), id, Limiters.Next(met, now));
    }

    /** One request; `created` is the clock when a limiter is made, `now` when it decides. */
    method Allow(id: string, created: int, now: int) returns (d: Decision)
      requires Owned()
      modifies this, Objects(limiters)
      ensures Owned() && fresh(Objects(limiters) - old(Objects(limiters)))
      ensures Contents() == AfterAllow(old(Contents()), id, created, now)
      ensures d == Decide(LimiterFor(old(Contents()), id, created), now)
    {
      DecisionIsAdmission(LimiterFor(Contents(), id, created), now);
      d := Ask(id, created, now);
      RecordDecision(id, d.allowed);
    }

    method RecordDecision(id: string, allowed: bool)
      modifies this`counts
      ensures Contents() == old(Contents()).(counts := old(counts)[id := Recorded(StatsFor(old(counts), id), allowed)])
    {
      var stats := StatsFor(counts, id);
      if allowed {
        stats := stats.(allowed := stats.allowed + 1);
      } else {
        stats := stats.(denied := stats.denied + 1);
      }
      counts := counts[id := stats];
    }

    /** A copy of the cumulative counts. */
    method Stats() returns (out: map<string, ClientStats>)
      ensures out == counts
    {
      out := map[];
      var todo := counts.Keys;
      while todo != {}
        invariant todo <= counts.Keys
        invariant out == map id | id in counts && id !in todo :: counts[id]
        decreases todo
      {
        var id :| id in todo;
        out := out[id := counts[id]];
        todo := todo - {id};
      }
    }

    /** The persisted form of the current contents. */
    method Snapshot() returns (p: PersistedState)
      ensures p == SnapshotOf(Contents())
    {
      var states: map<string, LimiterState> := map[];
      var todo := limiters.Keys;
      while todo != {}
        invariant todo <= limiters.Keys
        invariant states == map id | id in limiters && id !in todo :: Save(ValueOf(limiters[id]))
        decreases todo
      {
        var id :| id in todo;
        match limiters[id] {
          case BucketObject(b) =>
            states := states[id := LimiterState(ALGORITHM_TOKEN_BUCKET, Some(b.State()), None)];
          case WindowObject(w) =>
            states := states[id := LimiterState(ALGORITHM_SLIDING_WINDOW, None, Some(w.State()))];
        }
        todo := todo - {id};
      }
      p := PersistedState(configs, states);
    }

    /** Replaces configurations and limiters; every limiter is a new object. */
    method Restore(p: PersistedState)
      modifies this
      ensures Owned() && fresh(Objects(limiters))
      ensures Contents() == AfterRestore(old(Contents()), p)
    {
      var loaded := LoadAll(p.limiters);
      assert Values(loaded) == LoadedLimiters(p);
      configs := p.configs;
      limiters := loaded;
    }
  }

  /** A new object for a persisted limiter whose tag and fields agree. */
  method LoadOne(s: LimiterState) returns (l: Option<Limiter>)
    ensures l.Some? <==> Load(s).Some?
    ensures l.Some? ==> fresh(ObjectOf(l.value)) && ValueOf(l.value) == Load(s).value
  {
    if s.algorithm == ALGORITHM_SLIDING_WINDOW && s.slidingWindow.Some? {
      var w := new SlidingWindow.FromState(s.slidingWindow.value, [], 0);
      l := Some(WindowObject(w));
    } else if s.algorithm == ALGORITHM_TOKEN_BUCKET && s.tokenBucket.Some? {
      var b := new TokenBucket.FromState(s.tokenBucket.value);
      l := Some(BucketObject(b));
    } else {
      l := None;
    }
  }

  /** New objects for the persisted limiters whose tag and fields agree. */
  method LoadAll(states: map<string, LimiterState>) returns (loaded: map<string, Limiter>)
    ensures Distinct(loaded)
    ensures forall id :: id in loaded ==> fresh(ObjectOf(loaded[id]))
    ensures forall id :: id in loaded <==> id in states && Load(states[id]).Some?
    ensures forall id :: id in loaded ==> ValueOf(loaded[id]) == Load(states[id]).value
  {
    hide Load;
    loaded := map[];
    var todo := states.Keys;
    while todo != {}
      invariant todo <= states.Keys && Distinct(loaded)
      invariant forall id :: id in loaded <==> id in states && id !in todo && Load(states[id]).Some?
      invariant forall id :: id in loaded ==>
        fresh(ObjectOf(loaded[id])) && ValueOf(loaded[id]) == Load(states[id]).value
      decreases todo
    {
      var id :| id in todo;
      ghost var before := loaded;
      var l := LoadOne(states[id]);
      if l.Some? {
        assert forall c :: c in before ==> ObjectOf(before[c]) != ObjectOf(l.value);
        loaded := loaded[id := l.value];
      }
      todo := todo - {id};
    }
  }
}
