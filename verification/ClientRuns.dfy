/** One client's requests, however their steps interleave with each other and with everyone else's. */
module ClientRuns {
  import opened Configs
  import opened Durations
  import opened Limiters
  import opened Logs
  import opened ManagerInterleavings
  import opened Managers
  import SlidingWindows
  import opened WindowRuns
  import opened Wrappers

  /** The step asks the limiter of this client. */
  predicate Asks(s: System, step: Step, id: string)
    requires Enabled(s, step)
  {
    step.Ask? && s.threads[step.t].id == id
  }

  predicate Admitting(s: System, step: Step, id: string)
    requires Enabled(s, step)
  {
    Asks(s, step, id) && Limiters.Admits(s.heap[s.threads[step.t].address], step.now)
  }

  /** The clock readings at which the client's limiter is asked, in the order of its lock. */
  function CallsOf(s: System, steps: seq<Step>, id: string): seq<int>
    requires ValidRun(s, steps)
    decreases steps
  {
    if steps == [] then
      []
    else
      (if Asks(s, steps[0], id) then [steps[0].now] else []) + CallsOf(After(s, steps[0]), steps[1..], id)
  }

  /** The clock readings of the client's admitted requests. */
  function AdmittedTimes(s: System, steps: seq<Step>, id: string): seq<int>
    requires ValidRun(s, steps)
    decreases steps
  {
    if steps == [] then
      []
    else
      (if Admitting(s, steps[0], id) then [steps[0].now] else []) + AdmittedTimes(After(s, steps[0]), steps[1..], id)
  }

  /** The number of the client's requests that are admitted. */
  function AdmittedIn(s: System, steps: seq<Step>, id: string): nat
    requires ValidRun(s, steps)
  {
    |AdmittedTimes(s, steps, id)|
  }

  /** The step makes a limiter for this client. */
  predicate Makes(s: System, step: Step, id: string) {
    step.GetLimiter? && step.id == id && id !in s.limiters
  }

  /** The clock readings at which limiters are made for the client. */
  function Makings(s: System, steps: seq<Step>, id: string): seq<int>
    requires ValidRun(s, steps)
    decreases steps
  {
    if steps == [] then
      []
    else
      (if Makes(s, steps[0], id) then [steps[0].created] else []) + Makings(After(s, steps[0]), steps[1..], id)
  }

  /** Some request of the client begins. */
  ghost predicate Requested(steps: seq<Step>, id: string) {
    exists k :: 0 <= k < |steps| && steps[k].GetLimiter? && steps[k].id == id
  }

  /** The step neither reconfigures this client nor replaces everything. */
  predicate Spares(step: Step, id: string) {
    match step
    case SetConfig(other, _) => other != id
    case RemoveClient(other) => other != id
    case EndRestore(_) => false
    case Crash => false
    case _ => true
  }

  ghost predicate SparesAll(steps: seq<Step>, id: string) {
    forall k :: 0 <= k < |steps| ==> Spares(steps[k], id)
  }

  /** The client has a limiter, and every request of its in progress holds that one. */
  ghost predicate Live(s: System, id: string) {
    && id in s.limiters && s.limiters[id] in s.heap
    && forall t :: t in s.threads && s.threads[t].Holding? && s.threads[t].id == id ==>
         s.threads[t].address == s.limiters[id]
  }

  /** The client has no limiter and no request in progress holds one of its. */
  ghost predicate Unborn(s: System, id: string) {
    && id !in s.limiters
    && forall t :: t in s.threads && s.threads[t].Holding? ==> s.threads[t].id != id
  }

  /** A spared client keeps its limiter, and gets one only from a request of its own. */
  lemma LimiterEntry(s: System, step: Step, id: string)
    requires Enabled(s, step) && Spares(step, id)
    ensures id in s.limiters ==> id in After(s, step).limiters && After(s, step).limiters[id] == s.limiters[id]
    ensures id !in s.limiters && !(step.GetLimiter? && step.id == id) ==> id !in After(s, step).limiters
  {
    hide NewLimiter, Limiters.Next, Limiters.Admits, LoadedLimiters, ConfigFor, Save, StatsFor, Recorded;
  }

  lemma StepKeepsLive(s: System, step: Step, id: string)
    requires Enabled(s, step) && Spares(step, id) && Live(s, id)
    ensures Live(After(s, step), id) && After(s, step).limiters[id] == s.limiters[id]
  {
    hide After, Enabled;
    LimiterEntry(s, step, id);
    HeapStays(s, step, s.limiters[id]);
    var s' := After(s, step);
    forall u | u in s'.threads && s'.threads[u].Holding? && s'.threads[u].id == id
      ensures s'.threads[u].address == s'.limiters[id]
    {
      HolderWasOrIsNew(s, step, u);
    }
  }

  lemma StepOnLiveLimiter(s: System, step: Step, id: string)
    requires Enabled(s, step) && Spares(step, id) && Fits(s) && Live(s, id) && s.limiters[id] in After(s, step).heap
    ensures var l, l' := s.heap[s.limiters[id]], After(s, step).heap[s.limiters[id]];
            if Asks(s, step, id) then
              l' == Limiters.Next(l, step.now) && Admitting(s, step, id) == Limiters.Admits(l, step.now)
            else
              l' == l
  {
    hide NewLimiter, Limiters.Next, Limiters.Admits, LoadedLimiters, ConfigFor, Save;
    hide BuiltFor, Consistent, StatsFor, Recorded;
    if step.Ask? {
      assert PcFits(s, s.threads[step.t]) && Serves(s, s.limiters[id], id, s.configs);
    }
  }

  lemma StepWhileLive(s: System, step: Step, id: string)
    requires Enabled(s, step) && Spares(step, id) && Fits(s) && Live(s, id)
    ensures Live(After(s, step), id) && After(s, step).limiters[id] == s.limiters[id]
    ensures var l, l' := s.heap[s.limiters[id]], After(s, step).heap[s.limiters[id]];
            if Asks(s, step, id) then
              l' == Limiters.Next(l, step.now) && Admitting(s, step, id) == Limiters.Admits(l, step.now)
            else
              l' == l
  {
    hide After, Enabled, Fits, Asks, Admitting, Limiters.Next, Limiters.Admits;
    StepKeepsLive(s, step, id);
    StepOnLiveLimiter(s, step, id);
  }

  /** From the moment it has a limiter, a client's requests are one sequential run of it. */
  lemma {:induction false} LiveRun(s: System, steps: seq<Step>, id: string)
    requires ValidRun(s, steps) && SparesAll(steps, id) && Fits(s) && Live(s, id)
    ensures AdmittedTimes(s, steps, id) == RunLog(s.heap[s.limiters[id]], CallsOf(s, steps, id))
    ensures Makings(s, steps, id) == []
    ensures var s' := Run(s, steps);
            && Live(s', id) && s'.limiters[id] == s.limiters[id]
            && s'.heap[s.limiters[id]] == RunValue(s.heap[s.limiters[id]], CallsOf(s, steps, id))
    decreases steps
  {
    hide Fits, After, Enabled, Spares, Admitting, Limiters.Next, Limiters.Admits;
    if steps != [] {
      var step, s', rest := steps[0], After(s, steps[0]), steps[1..];
      StepWhileLive(s, step, id);
      StepKeepsFit(s, step);
      LiveRun(s', rest, id);
      if Asks(s, step, id) {
        OneEarlierCall(s.heap[s.limiters[id]], step.now, CallsOf(s', rest, id));
      } else {
        assert CallsOf(s, steps, id) == CallsOf(s', rest, id);
        NotAskedNotAdmitting(s, step, id);
      }
    }
  }

  lemma NotAskedNotAdmitting(s: System, step: Step, id: string)
    requires Enabled(s, step) && !Asks(s, step, id)
    ensures !Admitting(s, step, id)
  {
  }

  /** A client without a limiter stays without one until one of its own requests gets it one. */
  lemma UnbornStays(s: System, step: Step, id: string)
    requires Enabled(s, step) && Spares(step, id) && Unborn(s, id) && !(step.GetLimiter? && step.id == id)
    ensures Unborn(After(s, step), id)
  {
    hide After, Enabled;
    LimiterEntry(s, step, id);
    var s' := After(s, step);
    forall u | u in s'.threads && s'.threads[u].Holding?
      ensures s'.threads[u].id != id
    {
      HolderWasOrIsNew(s, step, u);
    }
  }

  lemma UnbornDoesNotAsk(s: System, step: Step, id: string)
    requires Enabled(s, step) && Unborn(s, id)
    ensures !Asks(s, step, id)
  {
  }

  lemma SparedKeepsConfig(s: System, step: Step, id: string)
    requires Enabled(s, step) && Spares(step, id)
    ensures ConfigFor(After(s, step).configs, id) == ConfigFor(s.configs, id)
  {
    hide NewLimiter, Limiters.Next, Limiters.Admits, LoadedLimiters, Save, StatsFor, Recorded;
  }

  lemma FirstGetMakesLive(s: System, t: nat, id: string, created: int, address: nat)
    requires Enabled(s, GetLimiter(t, id, created, address)) && Unborn(s, id)
    ensures var s' := AfterGet(s, t, id, created, address);
            Live(s', id) && s'.heap[s'.limiters[id]] == NewLimiter(ConfigFor(s.configs, id), created)
  {
    hide NewLimiter;
  }

  lemma StepWhileUnborn(s: System, step: Step, id: string)
    requires Enabled(s, step) && Spares(step, id) && Unborn(s, id)
    ensures !Asks(s, step, id)
    ensures var s' := After(s, step);
            if step.GetLimiter? && step.id == id then
              && Live(s', id)
              && s'.heap[s'.limiters[id]] == NewLimiter(ConfigFor(s.configs, id), step.created)
            else
              Unborn(s', id) && ConfigFor(s'.configs, id) == ConfigFor(s.configs, id)
  {
    hide NewLimiter, ConfigFor, AfterGet, Live, Unborn;
    if step.GetLimiter? && step.id == id {
      FirstGetMakesLive(s, step.t, id, step.created, step.address);
    } else {
      UnbornStays(s, step, id);
      UnbornDoesNotAsk(s, step, id);
      SparedKeepsConfig(s, step, id);
    }
  }

  /**
   Linearizability: from a state in which a client has no limiter, however the steps of its
   requests interleave with each other and with everyone else's, its first request makes a limiter
   and no other does, its admissions are those of one sequential run of that limiter, and that run
   is what the limiter ends up with.
   */
  lemma {:induction false} RequestsAreOneRun(s: System, steps: seq<Step>, id: string) returns (created: int)
    requires ValidRun(s, steps) && SparesAll(steps, id) && Fits(s) && Unborn(s, id)
    ensures AdmittedTimes(s, steps, id)
         == RunLog(NewLimiter(ConfigFor(s.configs, id), created), CallsOf(s, steps, id))
    ensures Makings(s, steps, id) == if Requested(steps, id) then [created] else []
    ensures !Requested(steps, id) ==> CallsOf(s, steps, id) == []
    ensures var s' := Run(s, steps);
            if Requested(steps, id) then
              && Live(s', id)
              && s'.heap[s'.limiters[id]]
                 == RunValue(NewLimiter(ConfigFor(s.configs, id), created), CallsOf(s, steps, id))
            else
              Unborn(s', id)
    decreases steps
  {
    hide Fits, After, Enabled, Spares, Asks, Admitting, NewLimiter, ConfigFor, RunValue, RunLog;
    hide Requested, Live, Unborn;
    if steps == [] {
      created := 0;
      NoCalls(NewLimiter(ConfigFor(s.configs, id), created));
      NothingRequested(id);
    } else {
      var step, s', rest := steps[0], After(s, steps[0]), steps[1..];
      StepWhileUnborn(s, step, id);
      StepKeepsFit(s, step);
      NotAskedNotAdmitting(s, step, id);
      assert CallsOf(s, steps, id) == CallsOf(s', rest, id);
      if step.GetLimiter? && step.id == id {
        created := step.created;
        LiveRun(s', rest, id);
        UnbornMakes(s, step, id);
        RequestedFirst(steps, id);
      } else {
        created := RequestsAreOneRun(s', rest, id);
        RequestedFirst(steps, id);
      }
    }
  }

  lemma NothingRequested(id: string)
    ensures !Requested([], id)
  {
  }

  lemma UnbornMakes(s: System, step: Step, id: string)
    requires Unborn(s, id) && step.GetLimiter? && step.id == id
    ensures Makes(s, step, id)
  {
  }

  lemma RequestedFirst(steps: seq<Step>, id: string)
    requires steps != []
    ensures Requested(steps, id) <==> (steps[0].GetLimiter? && steps[0].id == id) || Requested(steps[1..], id)
  {
    if Requested(steps[1..], id) {
      var k :| 0 <= k < |steps[1..]| && steps[1..][k].GetLimiter? && steps[1..][k].id == id;
      assert steps[k + 1] == steps[1..][k];
    }
    if Requested(steps, id) && !(steps[0].GetLimiter? && steps[0].id == id) {
      var k :| 0 <= k < |steps| && steps[k].GetLimiter? && steps[k].id == id;
      assert steps[1..][k - 1] == steps[k];
    }
  }

  /** Every making of a limiter is a request's. */
  lemma {:induction false} MakingIsRequest(s: System, steps: seq<Step>, id: string, j: nat) returns (k: nat)
    requires ValidRun(s, steps) && j < |Makings(s, steps, id)|
    ensures k < |steps| && steps[k].GetLimiter? && steps[k].id == id
    ensures steps[k].created == Makings(s, steps, id)[j]
    decreases steps
  {
    hide After, Enabled;
    if Makes(s, steps[0], id) && j == 0 {
      k := 0;
    } else {
      k := MakingIsRequest(After(s, steps[0]), steps[1..], id, if Makes(s, steps[0], id) then j - 1 else j);
      k := k + 1;
    }
  }

  /** The clock shows the same reading throughout. */
  ghost predicate FrozenAt(steps: seq<Step>, now: int) {
    forall k :: 0 <= k < |steps| ==>
      && (steps[k].GetLimiter? ==> steps[k].created == now)
      && (steps[k].Ask? ==> steps[k].now == now)
  }

  lemma {:induction false} FrozenCalls(s: System, steps: seq<Step>, id: string, now: int)
    requires ValidRun(s, steps) && FrozenAt(steps, now)
    ensures CallsOf(s, steps, id) == AtOnce(now, |CallsOf(s, steps, id)|)
    decreases steps
  {
    hide After, Enabled;
    if steps != [] {
      assert steps[0] == steps[..][0];
      FrozenCalls(After(s, steps[0]), steps[1..], id, now);
    }
  }

  /**
   The burst in every interleaving: on a frozen clock n concurrent requests of a client without a
   limiter admit exactly min(n, floor(burst)) under token bucket and min(n, ceil(burst)) under
   sliding window.
   */
  lemma BurstInEveryInterleaving(s: System, steps: seq<Step>, id: string, now: int)
    requires ValidRun(s, steps) && SparesAll(steps, id) && Fits(s) && Unborn(s, id) && FrozenAt(steps, now)
    requires var cfg := ConfigFor(s.configs, id);
             Valid(cfg) && (cfg.algorithm == ALGORITHM_SLIDING_WINDOW ==> WindowFor(cfg) >= 1)
    ensures AdmittedIn(s, steps, id) == Fewer(|CallsOf(s, steps, id)|, BurstOf(ConfigFor(s.configs, id)))
  {
    hide Fits, RunLog, NewLimiter;
    var calls := CallsOf(s, steps, id);
    var created := RequestsAreOneRun(s, steps, id);
    FrozenCalls(s, steps, id, now);
    NewLimiterBurst(ConfigFor(s.configs, id), now, |calls|);
    if calls == [] {
      NoCalls(NewLimiter(ConfigFor(s.configs, id), created));
      NoCalls(NewLimiter(ConfigFor(s.configs, id), now));
    } else {
      var k := MakingIsRequest(s, steps, id, 0);
    }
  }

  lemma LiveFits(s: System, id: string)
    requires Fits(s) && Live(s, id)
    ensures BuiltFor(s.heap[s.limiters[id]], ConfigFor(s.configs, id))
  {
    hide BuiltFor, Consistent, PcFits;
    assert Serves(s, s.limiters[id], id, s.configs);
  }

  lemma BuiltBucketRate(l: LimiterValue, cfg: Config, times: seq<int>, lo: int, hi: int)
    requires Valid(cfg) && cfg.algorithm == ALGORITHM_TOKEN_BUCKET && BuiltFor(l, cfg)
    requires Nondecreasing(times) && lo <= hi
    ensures CountIn(RunLog(l, times), lo, hi + 1) as real <= cfg.burst + cfg.rps * Seconds(hi - lo)
  {
    hide RunLog, CountIn, Seconds;
    BucketRate(l.bucket, times, lo, hi);
  }

  /**
   The rate in every interleaving, token bucket: whatever interleaves, a client's requests admitted
   with readings in [lo, hi] number at most burst + rps * length.
   */
  lemma BucketRateInEveryInterleaving(s: System, steps: seq<Step>, id: string, lo: int, hi: int)
    requires ValidRun(s, steps) && SparesAll(steps, id) && Fits(s) && (Live(s, id) || Unborn(s, id))
    requires Valid(ConfigFor(s.configs, id)) && ConfigFor(s.configs, id).algorithm == ALGORITHM_TOKEN_BUCKET
    requires Nondecreasing(CallsOf(s, steps, id)) && lo <= hi
    ensures var cfg := ConfigFor(s.configs, id);
            CountIn(AdmittedTimes(s, steps, id), lo, hi + 1) as real <= cfg.burst + cfg.rps * Seconds(hi - lo)
  {
    hide Fits, RunLog, RunValue, CountIn, Seconds, CallsOf, AdmittedTimes, BuiltFor, NewLimiter;
    hide Unborn, ValidRun, Run, SparesAll, Makings, Requested, Valid, ConfigFor, Nondecreasing;
    var cfg, calls := ConfigFor(s.configs, id), CallsOf(s, steps, id);
    if Live(s, id) {
      LiveRun(s, steps, id);
      LiveFits(s, id);
      BuiltBucketRate(s.heap[s.limiters[id]], cfg, calls, lo, hi);
    } else {
      var created := RequestsAreOneRun(s, steps, id);
      NewLimiterFits(cfg, created);
      BuiltBucketRate(NewLimiter(cfg, created), cfg, calls, lo, hi);
    }
  }

  /**
   The rate in every interleaving, sliding window: at most ceil(burst) * (ceil(length / window) + 1)
   requests are admitted with readings in [lo, hi].
   */
  lemma WindowRateInEveryInterleaving(s: System, steps: seq<Step>, id: string, lo: int, hi: int)
    requires ValidRun(s, steps) && SparesAll(steps, id) && Fits(s) && Unborn(s, id)
    requires ConfigFor(s.configs, id).algorithm == ALGORITHM_SLIDING_WINDOW
    requires WindowFor(ConfigFor(s.configs, id)) >= 1
    requires Nondecreasing(Makings(s, steps, id) + CallsOf(s, steps, id)) && lo <= hi
    ensures var cfg := ConfigFor(s.configs, id);
            CountIn(AdmittedTimes(s, steps, id), lo, hi + 1)
            <= PerWindow(cfg.burst) * (WindowsFor(hi - lo, WindowFor(cfg)) + 1)
  {
    hide Fits, RunLog, RunValue, CountIn, CallsOf, AdmittedTimes, Makings, NewLimiter, PerWindow, WindowsFor, WindowFor;
    hide Unborn, Live, ValidRun, Run, SparesAll, Requested, ConfigFor, Nondecreasing;
    var cfg, calls := ConfigFor(s.configs, id), CallsOf(s, steps, id);
    var created := RequestsAreOneRun(s, steps, id);
    if calls == [] {
      NoCalls(NewLimiter(cfg, created));
      NothingLogged(lo, hi + 1);
    } else {
      NewWindowRate(cfg, created, calls, lo, hi);
    }
  }

  lemma NothingLogged(lo: int, hi: int)
    ensures CountIn([], lo, hi) == 0
  {
  }

  ghost predicate NoCrash(steps: seq<Step>) {
    forall k :: 0 <= k < |steps| ==> !steps[k].Crash?
  }

  /** A step adds to a client's decisions what its limiter decides. */
  lemma StepMakesDecision(s: System, step: Step, id: string, allowed: bool)
    requires Enabled(s, step) && !step.Crash?
    ensures CountOf(StatsFor(After(s, step).made, id), allowed)
         == CountOf(StatsFor(s.made, id), allowed)
            + if Asks(s, step, id) && Admitting(s, step, id) == allowed then 1 else 0
  {
    hide NewLimiter, Limiters.Next, Limiters.Admits, LoadedLimiters, ConfigFor, Save;
    if !step.Ask? {
      OnlyAsksDecide(s, step);
    }
  }

  lemma OnlyAsksDecide(s: System, step: Step)
    requires Enabled(s, step) && !step.Crash? && !step.Ask?
    ensures After(s, step).made == s.made
  {
    hide NewLimiter, Limiters.Next, Limiters.Admits, LoadedLimiters, ConfigFor, Save, StatsFor, Recorded;
  }

  lemma {:induction false} DecisionsMade(s: System, steps: seq<Step>, id: string, allowed: bool)
    requires ValidRun(s, steps) && NoCrash(steps)
    ensures CountOf(StatsFor(Run(s, steps).made, id), allowed)
         == CountOf(StatsFor(s.made, id), allowed)
            + if allowed then AdmittedIn(s, steps, id) else |CallsOf(s, steps, id)| - AdmittedIn(s, steps, id)
    decreases steps
  {
    hide After, Enabled, StatsFor, CountOf, Asks, Admitting;
    if steps != [] {
      assert !steps[0].Crash?;
      StepMakesDecision(s, steps[0], id, allowed);
      if !Asks(s, steps[0], id) {
        NotAskedNotAdmitting(s, steps[0], id);
      }
      DecisionsMade(After(s, steps[0]), steps[1..], id, allowed);
    }
  }

  /**
   The counts are the decisions: from the start of the process on, a client's allowed count and its
   admissions still to be counted are the admissions of its requests, and the same for denials.
   */
  lemma CountsAreDecisions(steps: seq<Step>, id: string)
    requires ValidRun(START, steps) && NoCrash(steps)
    ensures var s, admitted := Run(START, steps), AdmittedIn(START, steps, id);
            && StatsFor(s.counts, id).allowed + Pending(s.threads, id, true) == admitted
            && StatsFor(s.counts, id).denied + Pending(s.threads, id, false)
               == |CallsOf(START, steps, id)| - admitted
  {
    hide Pending, AdmittedIn, CallsOf, Run;
    EveryDecisionIsCountedOnce(steps, id, true);
    EveryDecisionIsCountedOnce(steps, id, false);
    DecisionsMade(START, steps, id, true);
    DecisionsMade(START, steps, id, false);
  }
}
