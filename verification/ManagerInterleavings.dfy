/**
 The manager under concurrency. A request takes three steps, each under its own lock: find or make
 the limiter, let it decide, count the decision. A snapshot copies the maps in one step and reads
 each limiter in a step of its own; a restore builds its limiters before it takes the lock. Steps
 of any number of goroutines interleave freely, and the process may crash between any two.
 */
module ManagerInterleavings {
  import opened Configs
  import opened Durations
  import opened Limiters
  import opened Managers
  import opened Threads
  import opened Wrappers

  /** How far a goroutine has come. */
  datatype Pc =
    | Holding(id: string, address: nat)
    | Decided(id: string, allowed: bool)
    | Saving(configs: map<string, Config>, todo: map<string, nat>, states: map<string, LimiterState>)
    | Loading(p: PersistedState, ids: set<string>, built: map<string, nat>)

  datatype Step =
    | GetLimiter(t: nat, id: string, created: int, address: nat)
    | Ask(t: nat, now: int)
    | Record(t: nat)
    | SetConfig(id: string, cfg: Config)
    | RemoveClient(id: string)
    | BeginSnapshot(t: nat)
    | SaveOne(t: nat, id: string)
    | EndSnapshot(t: nat)
    | BeginRestore(t: nat, k: nat)
    | LoadOne(t: nat, id: string, address: nat)
    | EndRestore(t: nat)
    | Crash

  /**
   Limiters live on a heap and are known by address. `snapshots` are those saved so far; `owner`
   and `made` are history: the client an address was allocated for, and the decisions taken for
   each client since the process started.
   */
  datatype System = System(
    configs: map<string, Config>,
    limiters: map<string, nat>,
    heap: map<nat, LimiterValue>,
    counts: map<string, ClientStats>,
    threads: map<nat, Pc>,
    snapshots: seq<PersistedState>,
    owner: map<nat, string>,
    made: map<string, ClientStats>)

  const START := System(map[], map[], map[], map[], map[], [], map[], map[])

  predicate Enabled(s: System, step: Step) {
    match step
    case GetLimiter(t, _, _, address) => t !in s.threads && address !in s.heap
    case Ask(t, _) => t in s.threads && s.threads[t].Holding? && s.threads[t].address in s.heap
    case Record(t) => t in s.threads && s.threads[t].Decided?
    case SetConfig(_, cfg) => Valid(cfg)
    case RemoveClient(_) => true
    case BeginSnapshot(t) => t !in s.threads
    case SaveOne(t, id) =>
      t in s.threads && s.threads[t].Saving? && id in s.threads[t].todo && s.threads[t].todo[id] in s.heap
    case EndSnapshot(t) => t in s.threads && s.threads[t].Saving? && s.threads[t].todo == map[]
    case BeginRestore(t, k) => t !in s.threads && k < |s.snapshots|
    case LoadOne(t, id, address) =>
      && t in s.threads && s.threads[t].Loading? && id in s.threads[t].ids && address !in s.heap
      && id in LoadedLimiters(s.threads[t].p)
    case EndRestore(t) => t in s.threads && s.threads[t].Loading? && s.threads[t].ids == {}
    case Crash => true
  }

  /** A new object at an unused address, made for one client. */
  function Allocated(s: System, address: nat, id: string, l: LimiterValue): System {
    s.(heap := s.heap[address := l], owner := s.owner[address := id])
  }

  function Moved(s: System, t: nat, pc: Pc): System {
    s.(threads := s.threads[t := pc])
  }

  function Finished(s: System, t: nat): System {
    s.(threads := s.threads - {t})
  }

  function AfterGet(s: System, t: nat, id: string, created: int, address: nat): System {
    if id in s.limiters then
      Moved(s, t, Holding(id, s.limiters[id]))
    else
      var made := Allocated(s, address, id, NewLimiter(ConfigFor(s.configs, id), created));
      Moved(made.(limiters := s.limiters[id := address]), t, Holding(id, address))
  }

  function AfterAsk(s: System, t: nat, now: int): System
    requires Enabled(s, Ask(t, now))
  {
    var id, a := s.threads[t].id, s.threads[t].address;
    var allowed := Limiters.Admits(s.heap[a], now);
    Moved(s.(heap := s.heap[a := Limiters.Next(s.heap[a], now)],
             made := s.made[id := Recorded(StatsFor(s.made, id), allowed)]), t, Decided(id, allowed))
  }

  function AfterRecord(s: System, t: nat): System
    requires Enabled(s, Record(t))
  {
    var id, allowed := s.threads[t].id, s.threads[t].allowed;
    Finished(s.(counts := s.counts[id := Recorded(StatsFor(s.counts, id), allowed)]), t)
  }

  function AfterSave(s: System, t: nat, id: string): System
    requires Enabled(s, SaveOne(t, id))
  {
    var pc := s.threads[t];
    Moved(s, t, pc.(todo := pc.todo - {id}, states := pc.states[id := Save(s.heap[pc.todo[id]])]))
  }

  function AfterLoad(s: System, t: nat, id: string, address: nat): System
    requires Enabled(s, LoadOne(t, id, address))
  {
    var pc := s.threads[t];
    Moved(Allocated(s, address, id, LoadedLimiters(pc.p)[id]), t,
          pc.(ids := pc.ids - {id}, built := pc.built[id := address]))
  }

  function After(s: System, step: Step): System
    requires Enabled(s, step)
  {
    match step
    case GetLimiter(t, id, created, address) => AfterGet(s, t, id, created, address)
    case Ask(t, now) => AfterAsk(s, t, now)
    case Record(t) => AfterRecord(s, t)
    case SetConfig(id, cfg) => s.(configs := s.configs[id := cfg], limiters := s.limiters - {id})
    case RemoveClient(id) => s.(configs := s.configs - {id}, limiters := s.limiters - {id})
    case BeginSnapshot(t) => Moved(s, t, Saving(s.configs, s.limiters, map[]))
    case SaveOne(t, id) => AfterSave(s, t, id)
    case EndSnapshot(t) =>
      Finished(s.(snapshots := s.snapshots + [PersistedState(s.threads[t].configs, s.threads[t].states)]), t)
    case BeginRestore(t, k) => Moved(s, t, Loading(s.snapshots[k], LoadedLimiters(s.snapshots[k]).Keys, map[]))
    case LoadOne(t, id, address) => AfterLoad(s, t, id, address)
    case EndRestore(t) =>
      Finished(s.(configs := s.threads[t].p.configs, limiters := s.threads[t].built), t)
    case Crash => START.(snapshots := s.snapshots)
  }

  /** A step leaves every goroutine but its own as it was. */
  lemma OthersStay(s: System, step: Step, u: nat)
    requires Enabled(s, step) && !step.Crash?
    requires step.SetConfig? || step.RemoveClient? || step.t != u
    ensures u in After(s, step).threads <==> u in s.threads
    ensures u in s.threads ==> After(s, step).threads[u] == s.threads[u]
  {
    hide NewLimiter, Limiters.Next, Limiters.Admits, LoadedLimiters, ConfigFor, Save, StatsFor, Recorded;
  }

  /** The only step that makes a goroutine hold a limiter is the first of a request, and it is the client's. */
  lemma OwnHold(s: System, step: Step)
    requires Enabled(s, step) && !step.Crash? && !step.SetConfig? && !step.RemoveClient?
    requires step.t in After(s, step).threads && After(s, step).threads[step.t].Holding?
    ensures step.GetLimiter? && step.id in After(s, step).limiters
    ensures After(s, step).threads[step.t] == Holding(step.id, After(s, step).limiters[step.id])
  {
    hide NewLimiter, Limiters.Next, Limiters.Admits, LoadedLimiters, ConfigFor, Save, StatsFor, Recorded;
  }

  lemma HolderWasOrIsNew(s: System, step: Step, u: nat)
    requires Enabled(s, step) && !step.Crash?
    requires u in After(s, step).threads && After(s, step).threads[u].Holding?
    ensures (u in s.threads && After(s, step).threads[u] == s.threads[u])
         || (step.GetLimiter? && step.t == u && step.id in After(s, step).limiters
             && After(s, step).threads[u] == Holding(step.id, After(s, step).limiters[step.id]))
  {
    hide After, Enabled;
    if step.SetConfig? || step.RemoveClient? || step.t != u {
      OthersStay(s, step, u);
    } else {
      OwnHold(s, step);
    }
  }

  /** Objects stay on the heap. */
  lemma HeapStays(s: System, step: Step, a: nat)
    requires Enabled(s, step) && !step.Crash? && a in s.heap
    ensures a in After(s, step).heap
    ensures After(s, step).heap[a]
         == if step.Ask? && s.threads[step.t].address == a then Limiters.Next(s.heap[a], step.now) else s.heap[a]
  {
    hide NewLimiter, Limiters.Next, Limiters.Admits, LoadedLimiters, ConfigFor, Save, StatsFor, Recorded;
  }

  /** The limiter at an address is the client's own, built for the configuration given. */
  ghost predicate Serves(s: System, address: nat, id: string, configs: map<string, Config>) {
    && address in s.heap && address in s.owner && s.owner[address] == id
    && BuiltFor(s.heap[address], ConfigFor(configs, id))
  }

  ghost predicate PcFits(s: System, pc: Pc) {
    match pc
    case Holding(id, a) => a in s.heap && a in s.owner && s.owner[a] == id
    case Decided(_, _) => true
    case Saving(configs, todo, states) =>
      && (forall id :: id in todo ==> Serves(s, todo[id], id, configs))
      && Consistent(PersistedState(configs, states))
    case Loading(p, ids, built) =>
      && Consistent(p) && ids <= LoadedLimiters(p).Keys
      && forall id :: id in built ==> Serves(s, built[id], id, p.configs)
  }

  /** Every live limiter is its client's own and fits the configuration in force. */
  ghost predicate Fits(s: System) {
    && (forall id :: id in s.limiters ==> Serves(s, s.limiters[id], id, s.configs))
    && (forall t :: t in s.threads ==> PcFits(s, s.threads[t]))
    && (forall k :: 0 <= k < |s.snapshots| ==> Consistent(s.snapshots[k]))
    && s.owner.Keys == s.heap.Keys
  }

  /** The heap only grows, limiters keep their owners, types and parameters. */
  ghost predicate Grows(s: System, s': System) {
    forall a :: a in s.heap && a in s.owner ==>
      && a in s'.heap && a in s'.owner && s'.owner[a] == s.owner[a]
      && forall cfg :: BuiltFor(s.heap[a], cfg) ==> BuiltFor(s'.heap[a], cfg)
  }

  lemma GrowingKeepsPcs(s: System, s': System, pc: Pc)
    requires Grows(s, s') && PcFits(s, pc)
    ensures PcFits(s', pc)
  {
  }

  lemma SameHeapGrows(s: System, s': System)
    requires s'.heap == s.heap && s'.owner == s.owner
    ensures Grows(s, s')
  {
  }

  lemma NewObjectGrows(s: System, s': System, address: nat, id: string, l: LimiterValue)
    requires address !in s.heap && s'.heap == s.heap[address := l] && s'.owner == s.owner[address := id]
    ensures Grows(s, s')
  {
  }

  lemma CallGrows(s: System, s': System, a: nat, now: int)
    requires a in s.heap && s'.heap == s.heap[a := Limiters.Next(s.heap[a], now)] && s'.owner == s.owner
    ensures Grows(s, s')
  {
    hide BuiltFor, Limiters.Next;
    forall cfg | BuiltFor(s.heap[a], cfg)
      ensures BuiltFor(s'.heap[a], cfg)
    {
      NextStaysBuiltFor(s.heap[a], now, cfg);
    }
  }

  lemma StepGrows(s: System, step: Step)
    requires Enabled(s, step) && !step.Crash?
    ensures Grows(s, After(s, step))
  {
    hide Grows, NewLimiter, Limiters.Next, Limiters.Admits, LoadedLimiters, StatsFor, Recorded, ConfigFor, Save;
    var s' := After(s, step);
    match step {
      case Ask(t, now) =>
        CallGrows(s, s', s.threads[t].address, now);
      case LoadOne(t, id, address) =>
        NewObjectGrows(s, s', address, id, LoadedLimiters(s.threads[t].p)[id]);
      case GetLimiter(_, id, created, address) =>
        if id in s.limiters {
          SameHeapGrows(s, s');
        } else {
          NewObjectGrows(s, s', address, id, NewLimiter(ConfigFor(s.configs, id), created));
        }
      case _ =>
        SameHeapGrows(s, s');
    }
  }

  /** Every object on the heap has an owner on record, and nothing else has. */
  lemma OwnersStayRecorded(s: System, step: Step)
    requires Enabled(s, step) && s.owner.Keys == s.heap.Keys
    ensures After(s, step).owner.Keys == After(s, step).heap.Keys
  {
    hide NewLimiter, Limiters.Next, Limiters.Admits, LoadedLimiters, StatsFor, Recorded, ConfigFor, Save;
  }

  lemma SavedFits(configs: map<string, Config>, states: map<string, LimiterState>, id: string, l: LimiterValue)
    requires Consistent(PersistedState(configs, states)) && BuiltFor(l, ConfigFor(configs, id))
    ensures Consistent(PersistedState(configs, states[id := Save(l)]))
  {
    var p, p' := PersistedState(configs, states), PersistedState(configs, states[id := Save(l)]);
    forall c | c in LoadedLimiters(p')
      ensures BuiltFor(LoadedLimiters(p')[c], ConfigFor(configs, c))
    {
      if c != id {
        assert c in LoadedLimiters(p);
      }
    }
  }

  /** The pcs of a step: all but the stepping goroutine's are as they were. */
  lemma PcsStillFit(s: System, step: Step)
    requires Enabled(s, step) && !step.Crash? && Fits(s)
    ensures var s' := After(s, step);
            forall t :: t in s'.threads && t in s.threads && s'.threads[t] == s.threads[t] ==> PcFits(s', s.threads[t])
  {
    hide PcFits, Grows, LoadedLimiters, NewLimiter, Limiters.Next, Limiters.Admits;
    StepGrows(s, step);
    var s' := After(s, step);
    forall t | t in s'.threads && t in s.threads && s'.threads[t] == s.threads[t]
      ensures PcFits(s', s.threads[t])
    {
      GrowingKeepsPcs(s, s', s.threads[t]);
    }
  }

  lemma ServesGrows(s: System, s': System, a: nat, id: string, configs: map<string, Config>)
    requires Grows(s, s') && Serves(s, a, id, configs)
    ensures Serves(s', a, id, configs)
  {
  }

  lemma SnapshotBeginsFit(s: System, t: nat)
    requires Fits(s)
    ensures PcFits(Moved(s, t, Saving(s.configs, s.limiters, map[])), Saving(s.configs, s.limiters, map[]))
  {
    NothingSavedFits(s.configs);
  }

  lemma SaveOneFits(s: System, t: nat, id: string)
    requires Enabled(s, SaveOne(t, id)) && PcFits(s, s.threads[t])
    ensures PcFits(AfterSave(s, t, id), AfterSave(s, t, id).threads[t])
  {
    hide LoadedLimiters, BuiltFor;
    var pc := s.threads[t];
    SavedFits(pc.configs, pc.states, id, s.heap[pc.todo[id]]);
  }

  lemma LoadOneFits(s: System, t: nat, id: string, address: nat)
    requires Enabled(s, LoadOne(t, id, address)) && PcFits(s, s.threads[t])
    ensures PcFits(AfterLoad(s, t, id, address), AfterLoad(s, t, id, address).threads[t])
  {
    hide LoadedLimiters, BuiltFor;
  }

  lemma GetFits(s: System, t: nat, id: string, created: int, address: nat)
    requires Fits(s)
    ensures PcFits(AfterGet(s, t, id, created, address), AfterGet(s, t, id, created, address).threads[t])
  {
    hide LoadedLimiters, BuiltFor, NewLimiter;
  }

  lemma AskFits(s: System, t: nat, now: int)
    requires Enabled(s, Ask(t, now))
    ensures PcFits(AfterAsk(s, t, now), AfterAsk(s, t, now).threads[t])
  {
  }

  lemma RestoreBeginsFit(s: System, t: nat, k: nat)
    requires Fits(s) && k < |s.snapshots|
    ensures var p := s.snapshots[k];
            PcFits(Moved(s, t, Loading(p, LoadedLimiters(p).Keys, map[])), Loading(p, LoadedLimiters(p).Keys, map[]))
  {
    hide LoadedLimiters, BuiltFor;
  }

  /** The step's own goroutine, if it goes on, goes on fitting. */
  lemma SteppingPcFits(s: System, step: Step, t: nat)
    requires Enabled(s, step) && !step.Crash? && Fits(s)
    requires t in After(s, step).threads && !(t in s.threads && After(s, step).threads[t] == s.threads[t])
    ensures PcFits(After(s, step), After(s, step).threads[t])
  {
    hide PcFits, NewLimiter, Limiters.Next, Limiters.Admits, LoadedLimiters, StatsFor, Recorded, ConfigFor, Save;
    match step {
      case GetLimiter(_, id, created, address) =>
        GetFits(s, t, id, created, address);
      case Ask(_, now) =>
        AskFits(s, t, now);
      case BeginSnapshot(_) =>
        SnapshotBeginsFit(s, t);
      case SaveOne(_, id) =>
        SaveOneFits(s, t, id);
      case BeginRestore(_, k) =>
        RestoreBeginsFit(s, t, k);
      case LoadOne(_, id, address) =>
        LoadOneFits(s, t, id, address);
      case _ =>
    }
  }

  lemma NothingSavedFits(configs: map<string, Config>)
    ensures Consistent(PersistedState(configs, map[]))
  {
  }

  /** The client's limiter and configuration are still the same. */
  ghost predicate Kept(s: System, s': System, id: string) {
    && id in s.limiters && id in s'.limiters && s'.limiters[id] == s.limiters[id]
    && ConfigFor(s'.configs, id) == ConfigFor(s.configs, id)
  }

  /** Where the limiters that a step leaves in the map come from. */
  lemma LimiterOrigin(s: System, step: Step, id: string)
    requires Enabled(s, step) && !step.Crash? && id in After(s, step).limiters
    ensures match step
            case GetLimiter(_, other, _, _) => Kept(s, After(s, step), id) || (id == other && id !in s.limiters)
            case EndRestore(t) =>
              && After(s, step).configs == s.threads[t].p.configs
              && After(s, step).limiters == s.threads[t].built
            case _ => Kept(s, After(s, step), id)
  {
    hide NewLimiter, Limiters.Next, Limiters.Admits, LoadedLimiters, Save, StatsFor, Recorded;
  }

  lemma MadeLimiterFits(s: System, step: Step, id: string)
    requires step.GetLimiter? && Enabled(s, step) && step.id == id && id !in s.limiters
    ensures id in After(s, step).limiters
    ensures Serves(After(s, step), After(s, step).limiters[id], id, After(s, step).configs)
  {
    hide NewLimiter, BuiltFor, ConfigFor;
    NewLimiterFits(ConfigFor(s.configs, id), step.created);
  }

  lemma RestoredLimiterFits(s: System, s': System, pc: Pc, id: string)
    requires pc.Loading? && PcFits(s, pc) && Grows(s, s') && id in pc.built
    ensures Serves(s', pc.built[id], id, pc.p.configs)
  {
    hide BuiltFor, Grows, Consistent, ConfigFor;
    ServesGrows(s, s', pc.built[id], id, pc.p.configs);
  }

  lemma LimitersFit(s: System, step: Step, id: string)
    requires Enabled(s, step) && !step.Crash? && Fits(s) && id in After(s, step).limiters
    ensures Serves(After(s, step), After(s, step).limiters[id], id, After(s, step).configs)
  {
    hide After, BuiltFor, Grows, Consistent, PcFits;
    var s' := After(s, step);
    StepGrows(s, step);
    LimiterOrigin(s, step, id);
    if step.EndRestore? {
      RestoredLimiterFits(s, s', s.threads[step.t], id);
    } else if Kept(s, s', id) {
      ServesGrows(s, s', s.limiters[id], id, s.configs);
    } else {
      MadeLimiterFits(s, step, id);
    }
  }

  /** What every step keeps. */
  lemma StepKeepsFit(s: System, step: Step)
    requires Enabled(s, step) && Fits(s)
    ensures Fits(After(s, step))
  {
    hide NewLimiter, Limiters.Next, Limiters.Admits, LoadedLimiters, BuiltFor, Serves, PcFits, Consistent;
    if !step.Crash? {
      var s' := After(s, step);
      OwnersStayRecorded(s, step);
      PcsStillFit(s, step);
      forall t | t in s'.threads
        ensures PcFits(s', s'.threads[t])
      {
        if !(t in s.threads && s'.threads[t] == s.threads[t]) {
          SteppingPcFits(s, step, t);
        }
      }
      forall id | id in s'.limiters
        ensures Serves(s', s'.limiters[id], id, s'.configs)
      {
        LimitersFit(s, step, id);
      }
      if step.EndSnapshot? {
        FinishedSnapshotFits(s, s.threads[step.t]);
      }
    }
  }

  lemma FinishedSnapshotFits(s: System, pc: Pc)
    requires pc.Saving? && PcFits(s, pc)
    ensures Consistent(PersistedState(pc.configs, pc.states))
  {
  }

  ghost predicate ValidRun(s: System, steps: seq<Step>)
    decreases steps
  {
    steps == [] || (Enabled(s, steps[0]) && ValidRun(After(s, steps[0]), steps[1..]))
  }

  function Run(s: System, steps: seq<Step>): System
    requires ValidRun(s, steps)
    decreases steps
  {
    if steps == [] then s else Run(After(s, steps[0]), steps[1..])
  }

  lemma {:induction false} RunSplits(s: System, a: seq<Step>, b: seq<Step>)
    requires ValidRun(s, a + b)
    ensures ValidRun(s, a) && ValidRun(Run(s, a), b)
    decreases a
  {
    hide After, Enabled;
    if a == [] {
      assert a + b == b;
    } else {
      assert (a + b)[0] == a[0] && (a + b)[1..] == a[1..] + b;
      RunSplits(After(s, a[0]), a[1..], b);
    }
  }

  lemma {:induction false} RunJoins(s: System, a: seq<Step>, b: seq<Step>)
    requires ValidRun(s, a) && ValidRun(Run(s, a), b)
    ensures ValidRun(s, a + b) && Run(s, a + b) == Run(Run(s, a), b)
    decreases a
  {
    hide After, Enabled;
    if a == [] {
      assert a + b == b;
    } else {
      assert (a + b)[0] == a[0] && (a + b)[1..] == a[1..] + b;
      RunJoins(After(s, a[0]), a[1..], b);
    }
  }

  lemma {:induction false} RunKeepsFit(s: System, steps: seq<Step>)
    requires ValidRun(s, steps) && Fits(s)
    ensures Fits(Run(s, steps))
    decreases steps
  {
    hide Fits, After, Enabled;
    if steps != [] {
      StepKeepsFit(s, steps[0]);
      RunKeepsFit(After(s, steps[0]), steps[1..]);
    }
  }

  /**
   In every reachable state, whatever has been interleaved, reconfigured, restored from however old
   a snapshot or lost in a crash: each client's limiter is of the type and with the parameters of
   the configuration in force, and no two clients share one.
   */
  lemma EveryReachableStateFits(steps: seq<Step>)
    requires ValidRun(START, steps)
    ensures var s := Run(START, steps);
            && (forall id :: id in s.limiters ==>
                  s.limiters[id] in s.heap && BuiltFor(s.heap[s.limiters[id]], ConfigFor(s.configs, id)))
            && (forall a, b :: a in s.limiters && b in s.limiters && a != b ==> s.limiters[a] != s.limiters[b])
  {
    RunKeepsFit(START, steps);
  }

  /** The number of goroutines that have decided so but not yet counted it. */
  function Pending(threads: map<nat, Pc>, id: string, allowed: bool): nat {
    CountAt(threads, Decided(id, allowed))
  }

  /** What has been counted plus what is still to be counted is what has been decided. */
  ghost predicate CountsAddUp(s: System, id: string, allowed: bool) {
    CountOf(StatsFor(s.counts, id), allowed) + Pending(s.threads, id, allowed)
    == CountOf(StatsFor(s.made, id), allowed)
  }

  lemma AskKeepsCounts(s: System, t: nat, now: int, id: string, allowed: bool)
    requires Enabled(s, Ask(t, now)) && CountsAddUp(s, id, allowed)
    ensures CountsAddUp(AfterAsk(s, t, now), id, allowed)
  {
    hide CountAt, Limiters.Next, Limiters.Admits;
    CountWithout(s.threads, t, Decided(id, allowed));
    CountMoved(s.threads, t, AfterAsk(s, t, now).threads[t], Decided(id, allowed));
  }

  lemma RecordKeepsCounts(s: System, t: nat, id: string, allowed: bool)
    requires Enabled(s, Record(t)) && CountsAddUp(s, id, allowed)
    ensures CountsAddUp(AfterRecord(s, t), id, allowed)
  {
    hide CountAt;
    CountWithout(s.threads, t, Decided(id, allowed));
  }

  lemma OtherMoveKeepsCounts(s: System, s': System, t: nat, pc: Option<Pc>, id: string, allowed: bool)
    requires CountsAddUp(s, id, allowed) && s'.counts == s.counts && s'.made == s.made
    requires t in s.threads ==> !s.threads[t].Decided?
    requires s'.threads == (if pc.Some? then s.threads[t := pc.value] else s.threads - {t})
    requires pc.Some? ==> !pc.value.Decided?
    ensures CountsAddUp(s', id, allowed)
  {
    hide CountAt;
    CountWithout(s.threads, t, Decided(id, allowed));
    if pc.Some? {
      CountMoved(s.threads, t, pc.value, Decided(id, allowed));
    }
  }

  lemma GetKeepsCounts(
      s: System, t: nat, client: string, created: int, address: nat, id: string, allowed: bool)
    requires t !in s.threads && CountsAddUp(s, id, allowed)
    ensures CountsAddUp(AfterGet(s, t, client, created, address), id, allowed)
  {
    hide NewLimiter;
    var s' := AfterGet(s, t, client, created, address);
    OtherMoveKeepsCounts(s, s', t, Some(s'.threads[t]), id, allowed);
  }

  lemma StepKeepsCounts(s: System, step: Step, id: string, allowed: bool)
    requires Enabled(s, step) && CountsAddUp(s, id, allowed)
    ensures CountsAddUp(After(s, step), id, allowed)
  {
    hide CountsAddUp, NewLimiter, LoadedLimiters, ConfigFor, Save, AfterAsk, AfterRecord, AfterGet;
    match step {
      case SetConfig(_, _) =>
        SameThreadsSameCounts(s, After(s, step), id, allowed);
      case RemoveClient(_) =>
        SameThreadsSameCounts(s, After(s, step), id, allowed);
      case Crash =>
        NothingPending(s.snapshots, id, allowed);
      case Ask(t, now) =>
        AskKeepsCounts(s, t, now, id, allowed);
      case Record(t) =>
        RecordKeepsCounts(s, t, id, allowed);
      case EndSnapshot(t) =>
        OtherMoveKeepsCounts(s, After(s, step), t, None, id, allowed);
      case EndRestore(t) =>
        OtherMoveKeepsCounts(s, After(s, step), t, None, id, allowed);
      case GetLimiter(t, client, created, address) =>
        GetKeepsCounts(s, t, client, created, address, id, allowed);
      case BeginSnapshot(t) =>
        OtherMoveKeepsCounts(s, After(s, step), t, Some(Saving(s.configs, s.limiters, map[])), id, allowed);
      case SaveOne(t, client) =>
        OtherMoveKeepsCounts(s, After(s, step), t, Some(AfterSave(s, t, client).threads[t]), id, allowed);
      case BeginRestore(t, k) =>
        var p := s.snapshots[k];
        OtherMoveKeepsCounts(s, After(s, step), t, Some(Loading(p, LoadedLimiters(p).Keys, map[])), id, allowed);
      case LoadOne(t, client, address) =>
        OtherMoveKeepsCounts(s, After(s, step), t, Some(AfterLoad(s, t, client, address).threads[t]), id, allowed);
    }
  }

  lemma SameThreadsSameCounts(s: System, s': System, id: string, allowed: bool)
    requires CountsAddUp(s, id, allowed)
    requires s'.counts == s.counts && s'.made == s.made && s'.threads == s.threads
    ensures CountsAddUp(s', id, allowed)
  {
  }

  lemma NothingPending(snapshots: seq<PersistedState>, id: string, allowed: bool)
    ensures CountsAddUp(START.(snapshots := snapshots), id, allowed)
  {
    assert At<Pc>(map[], Decided(id, allowed)) == {};
  }

  lemma {:induction false} RunKeepsCounts(s: System, steps: seq<Step>, id: string, allowed: bool)
    requires ValidRun(s, steps) && CountsAddUp(s, id, allowed)
    ensures CountsAddUp(Run(s, steps), id, allowed)
    decreases steps
  {
    hide CountsAddUp, After, Enabled;
    if steps != [] {
      StepKeepsCounts(s, steps[0], id, allowed);
      RunKeepsCounts(After(s, steps[0]), steps[1..], id, allowed);
    }
  }

  /** In every reachable state no decision is lost or counted twice. */
  lemma EveryDecisionIsCountedOnce(steps: seq<Step>, id: string, allowed: bool)
    requires ValidRun(START, steps)
    ensures CountsAddUp(Run(START, steps), id, allowed)
  {
    NothingPending([], id, allowed);
    RunKeepsCounts(START, steps, id, allowed);
  }

  /** The limiters the addresses of a map lead to. */
  function Meaning(limiters: map<string, nat>, heap: map<nat, LimiterValue>): map<string, LimiterValue> {
    map id | id in limiters && limiters[id] in heap :: heap[limiters[id]]
  }

  /** What the manager's maps mean. */
  function Contents(s: System): ManagerState {
    ManagerState(s.configs, Meaning(s.limiters, s.heap), s.counts)
  }

  lemma RunOne(s: System, step: Step, rest: seq<Step>)
    requires Enabled(s, step) && ValidRun(After(s, step), rest)
    ensures ValidRun(s, [step] + rest) && Run(s, [step] + rest) == Run(After(s, step), rest)
  {
    assert ([step] + rest)[1..] == rest;
  }

  /** The three steps of a request in a row. */
  function RequestSteps(t: nat, id: string, created: int, now: int, address: nat): seq<Step> {
    [GetLimiter(t, id, created, address), Ask(t, now), Record(t)]
  }

  lemma GetThenAsk(s: System, t: nat, id: string, created: int, now: int, address: nat)
    requires Fits(s) && t !in s.threads && address !in s.heap
    ensures var s1 := AfterGet(s, t, id, created, address);
            && Enabled(s1, Ask(t, now)) && s1.threads[t].id == id && id in s1.limiters
            && s1.threads[t].address == s1.limiters[id]
            && s1.heap[s1.limiters[id]] == LimiterFor(Contents(s), id, created)
            && forall c :: c in s1.limiters && c != id ==> s1.limiters[c] != s1.limiters[id]
  {
    hide NewLimiter, Limiters.Next, Limiters.Admits, BuiltFor, Consistent, LoadedLimiters, PcFits;
    assert forall c :: c in s.limiters ==> Serves(s, s.limiters[c], c, s.configs);
  }

  lemma GetKeepsContents(s: System, t: nat, id: string, created: int, address: nat)
    requires Fits(s) && address !in s.heap
    ensures Contents(AfterGet(s, t, id, created, address))
         == Contents(s).(limiters := Contents(s).limiters[id := LimiterFor(Contents(s), id, created)])
  {
    hide NewLimiter, Fits;
    if id in s.limiters {
      FoundKeepsContents(s, id);
    } else {
      LimitersAreOnHeap(s);
      MadeExtendsContents(s, id, address, NewLimiter(ConfigFor(s.configs, id), created));
    }
  }

  lemma LimitersAreOnHeap(s: System)
    requires Fits(s)
    ensures forall id :: id in s.limiters ==> s.limiters[id] in s.heap
  {
    hide BuiltFor, Consistent, PcFits;
    forall id | id in s.limiters
      ensures s.limiters[id] in s.heap
    {
      assert Serves(s, s.limiters[id], id, s.configs);
    }
  }

  lemma FoundKeepsContents(s: System, id: string)
    requires Fits(s) && id in s.limiters
    ensures id in Contents(s).limiters
    ensures Contents(s).(limiters := Contents(s).limiters[id := Contents(s).limiters[id]]) == Contents(s)
  {
    hide BuiltFor, Consistent, PcFits;
    assert Serves(s, s.limiters[id], id, s.configs);
    var limiters := Contents(s).limiters;
    assert limiters[id := limiters[id]] == limiters;
  }

  lemma NewMeaning(limiters: map<string, nat>, heap: map<nat, LimiterValue>, id: string, address: nat, l: LimiterValue)
    requires id !in limiters && address !in heap && forall c :: c in limiters ==> limiters[c] in heap
    ensures Meaning(limiters[id := address], heap[address := l]) == Meaning(limiters, heap)[id := l]
  {
  }

  lemma MadeExtendsContents(s: System, id: string, address: nat, l: LimiterValue)
    requires id !in s.limiters && address !in s.heap && forall c :: c in s.limiters ==> s.limiters[c] in s.heap
    ensures Contents(Allocated(s, address, id, l).(limiters := s.limiters[id := address]))
         == Contents(s).(limiters := Contents(s).limiters[id := l])
  {
    hide Meaning;
    NewMeaning(s.limiters, s.heap, id, address, l);
  }

  lemma AskThenRecord(s: System, t: nat, id: string, now: int)
    requires Enabled(s, Ask(t, now)) && s.threads[t].id == id && id in s.limiters
    requires s.threads[t].address == s.limiters[id]
    requires forall c :: c in s.limiters && c != id ==> s.limiters[c] != s.limiters[id]
    ensures Enabled(AfterAsk(s, t, now), Record(t))
    ensures var l := s.heap[s.limiters[id]];
            Contents(AfterRecord(AfterAsk(s, t, now), t))
            == AfterDecision(Contents(s), id, Limiters.Next(l, now), Limiters.Admits(l, now))
  {
    hide Limiters.Next, Limiters.Admits;
    var l := s.heap[s.limiters[id]];
    var s3 := AfterRecord(AfterAsk(s, t, now), t);
    assert Contents(s3).limiters == Contents(s).limiters[id := Limiters.Next(l, now)];
  }

  /** The three steps of a request, with nothing in between, are the atomic request. */
  lemma UninterruptedRequest(s: System, t: nat, id: string, created: int, now: int, address: nat)
    requires Fits(s) && t !in s.threads && address !in s.heap
    ensures ValidRun(s, RequestSteps(t, id, created, now, address))
    ensures Contents(Run(s, RequestSteps(t, id, created, now, address))) == AfterAllow(Contents(s), id, created, now)
  {
    hide Limiters.Next, Limiters.Admits, LimiterFor, Contents, AfterGet, AfterAsk, AfterRecord, Fits;
    var steps := RequestSteps(t, id, created, now, address);
    var s1 := AfterGet(s, t, id, created, address);
    GetThenAsk(s, t, id, created, now, address);
    GetKeepsContents(s, t, id, created, address);
    var s2 := AfterAsk(s1, t, now);
    AskThenRecord(s1, t, id, now);
    RunOne(s2, steps[2], []);
    RunOne(s1, steps[1], [steps[2]]);
    RunOne(s, steps[0], [steps[1], steps[2]]);
    assert steps == [steps[0]] + [steps[1], steps[2]] && [steps[1], steps[2]] == [steps[1]] + [steps[2]];
    assert [steps[2]] == [steps[2]] + [];
  }
}
