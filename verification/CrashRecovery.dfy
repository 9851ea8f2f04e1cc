/**
 A crash and a restart from a snapshot, as one client sees them: what the snapshot saved goes on as
 if nothing had happened, and what was admitted after it is forgotten.
 */
module CrashRecovery {
  import opened ClientRuns
  import opened Configs
  import opened Durations
  import opened Limiters
  import opened Logs
  import opened ManagerInterleavings
  import opened Managers
  import opened Snapshots
  import opened Wrappers
  import BucketRuns
  import SlidingWindows
  import TokenBuckets
  import WindowRuns

  /**
   A run with one crash, from the point of view of one client. Goroutine t saves the client's
   limiter after the steps `before`, goes on `saving` others and finishes; the process crashes
   later. The new process loads that snapshot before it serves anyone.
   */
  datatype History = History(
    before: seq<Step>, t: nat, saving: seq<Step>, waiting: seq<Step>,
    u: nat, k: nat, loads: seq<Step>, after: seq<Step>)

  /** The steps whose effect on the client the crash undoes. */
  function Lost(h: History, id: string): seq<Step> {
    [SaveOne(h.t, id)] + h.saving + [EndSnapshot(h.t)] + h.waiting
  }

  function Restart(h: History): seq<Step> {
    [Crash, BeginRestore(h.u, h.k)] + h.loads + [EndRestore(h.u)]
  }

  /** The whole run. */
  function Steps(h: History, id: string): seq<Step> {
    h.before + Lost(h, id) + Restart(h) + h.after
  }

  /** Two runs in a row are one run, and their admissions are those of both. */
  lemma {:induction false} RunsJoin(s: System, a: seq<Step>, b: seq<Step>, id: string)
    requires ValidRun(s, a) && ValidRun(Run(s, a), b)
    ensures ValidRun(s, a + b) && Run(s, a + b) == Run(Run(s, a), b)
    ensures AdmittedTimes(s, a + b, id) == AdmittedTimes(s, a, id) + AdmittedTimes(Run(s, a), b, id)
    decreases a
  {
    hide After, Enabled, Asks, Admitting;
    if a == [] {
      assert a + b == b;
    } else {
      assert (a + b)[0] == a[0] && (a + b)[1..] == a[1..] + b;
      RunsJoin(After(s, a[0]), a[1..], b, id);
    }
  }

  lemma {:induction false} NothingAsked(s: System, steps: seq<Step>, id: string)
    requires ValidRun(s, steps) && forall j :: 0 <= j < |steps| ==> !steps[j].Ask?
    ensures CallsOf(s, steps, id) == [] && AdmittedTimes(s, steps, id) == []
    decreases steps
  {
    hide After, Enabled;
    if steps != [] {
      assert !steps[0].Ask?;
      NothingAsked(After(s, steps[0]), steps[1..], id);
    }
  }

  /** Goroutine t has saved this value of the client's limiter and is not done yet. */
  ghost predicate HasSaved(s: System, t: nat, id: string, l: LimiterValue) {
    && t in s.threads && s.threads[t].Saving? && id !in s.threads[t].todo
    && id in s.threads[t].states && s.threads[t].states[id] == Save(l)
  }

  lemma SaverSavesOn(s: System, step: Step, id: string, l: LimiterValue)
    requires Enabled(s, step) && !step.Crash? && !step.SetConfig? && !step.RemoveClient?
    requires HasSaved(s, step.t, id, l) && !step.EndSnapshot?
    ensures HasSaved(After(s, step), step.t, id, l)
  {
    hide Save;
  }

  lemma StepKeepsSaved(s: System, step: Step, t: nat, id: string, l: LimiterValue)
    requires Enabled(s, step) && HasSaved(s, t, id, l) && !step.Crash? && step != EndSnapshot(t)
    ensures HasSaved(After(s, step), t, id, l)
  {
    hide After, Enabled, Save;
    if step.SetConfig? || step.RemoveClient? || step.t != t {
      OthersStay(s, step, t);
    } else {
      SaverSavesOn(s, step, id, l);
    }
  }

  lemma {:induction false} SavedLasts(s: System, steps: seq<Step>, t: nat, id: string, l: LimiterValue)
    requires ValidRun(s, steps) && HasSaved(s, t, id, l)
    requires forall j :: 0 <= j < |steps| ==> !steps[j].Crash? && steps[j] != EndSnapshot(t)
    ensures HasSaved(Run(s, steps), t, id, l)
    decreases steps
  {
    hide After, Enabled, HasSaved;
    if steps != [] {
      assert !steps[0].Crash? && steps[0] != EndSnapshot(t);
      StepKeepsSaved(s, steps[0], t, id, l);
      SavedLasts(After(s, steps[0]), steps[1..], t, id, l);
    }
  }

  /** Snapshot k holds this value of the client's limiter. */
  ghost predicate Snapshotted(s: System, k: nat, id: string, l: LimiterValue) {
    k < |s.snapshots| && id in LoadedLimiters(s.snapshots[k]) && LoadedLimiters(s.snapshots[k])[id] == l
  }

  lemma SavedIsSnapshotted(s: System, t: nat, id: string, l: LimiterValue)
    requires Enabled(s, EndSnapshot(t)) && HasSaved(s, t, id, l)
    ensures Snapshotted(After(s, EndSnapshot(t)), |s.snapshots|, id, l)
  {
  }

  lemma StepKeepsSnapshots(s: System, step: Step, k: nat, id: string, l: LimiterValue)
    requires Enabled(s, step) && Snapshotted(s, k, id, l)
    ensures Snapshotted(After(s, step), k, id, l)
  {
    hide NewLimiter, Limiters.Next, Limiters.Admits, LoadedLimiters, ConfigFor, Save, StatsFor, Recorded;
  }

  lemma {:induction false} SnapshotsLast(s: System, steps: seq<Step>, k: nat, id: string, l: LimiterValue)
    requires ValidRun(s, steps) && Snapshotted(s, k, id, l)
    ensures Snapshotted(Run(s, steps), k, id, l)
    decreases steps
  {
    hide After, Enabled, Snapshotted;
    if steps != [] {
      StepKeepsSnapshots(s, steps[0], k, id, l);
      SnapshotsLast(After(s, steps[0]), steps[1..], k, id, l);
    }
  }

  /** A new process in which goroutine u, alone, brings back a snapshot that holds the value l. */
  ghost predicate Restoring(s: System, u: nat, id: string, l: LimiterValue) {
    && s.threads.Keys == {u} && s.threads[u].Loading?
    && var pc := s.threads[u];
       && id in LoadedLimiters(pc.p) && LoadedLimiters(pc.p)[id] == l
       && (id !in pc.ids ==> id in pc.built && pc.built[id] in s.heap && s.heap[pc.built[id]] == l)
       && forall c :: c in pc.built ==> pc.built[c] in s.heap
  }

  /** What the restarting process does before it serves: it loads limiters, one after another. */
  ghost predicate OnlyLoads(steps: seq<Step>, u: nat) {
    forall j :: 0 <= j < |steps| ==> steps[j].LoadOne? && steps[j].t == u
  }

  lemma LoadKeepsRestoring(s: System, u: nat, other: string, address: nat, id: string, l: LimiterValue)
    requires Enabled(s, LoadOne(u, other, address)) && Restoring(s, u, id, l)
    ensures Restoring(AfterLoad(s, u, other, address), u, id, l)
  {
    hide LoadedLimiters;
  }

  lemma {:induction false} LoadsKeepRestoring(s: System, steps: seq<Step>, u: nat, id: string, l: LimiterValue)
    requires ValidRun(s, steps) && OnlyLoads(steps, u) && Restoring(s, u, id, l)
    ensures Restoring(Run(s, steps), u, id, l)
    decreases steps
  {
    hide Restoring, AfterLoad, Enabled;
    if steps != [] {
      assert steps[0].LoadOne? && steps[0].t == u;
      LoadKeepsRestoring(s, u, steps[0].id, steps[0].address, id, l);
      LoadsKeepRestoring(After(s, steps[0]), steps[1..], u, id, l);
    }
  }

  /** The client's limiter is live and holds this value. */
  ghost predicate LiveWith(s: System, id: string, l: LimiterValue) {
    Live(s, id) && s.heap[s.limiters[id]] == l
  }

  lemma RestoreMakesLive(s: System, u: nat, id: string, l: LimiterValue)
    requires Enabled(s, EndRestore(u)) && Restoring(s, u, id, l)
    ensures LiveWith(After(s, EndRestore(u)), id, l)
  {
    hide LoadedLimiters;
  }

  lemma CrashBeginsRestoring(s: System, u: nat, k: nat, id: string, l: LimiterValue)
    requires Snapshotted(s, k, id, l)
    ensures Restoring(After(After(s, Crash), BeginRestore(u, k)), u, id, l)
  {
    hide LoadedLimiters;
  }

  /** Through the restart the client's limiter comes back with the value that was saved. */
  lemma RestartBringsBack(s: System, h: History, id: string, l: LimiterValue)
    requires ValidRun(s, Restart(h)) && OnlyLoads(h.loads, h.u) && Snapshotted(s, h.k, id, l)
    ensures LiveWith(Run(s, Restart(h)), id, l)
    ensures CallsOf(s, Restart(h), id) == [] && AdmittedTimes(s, Restart(h), id) == []
  {
    hide After, Enabled, LiveWith, Restoring, Snapshotted, AdmittedTimes, CallsOf;
    var steps := Restart(h);
    NothingAsked(s, steps, id);
    var s1 := After(s, Crash);
    assert steps[0] == Crash && steps[1..][0] == BeginRestore(h.u, h.k);
    var s2 := After(s1, BeginRestore(h.u, h.k));
    assert steps[1..][1..] == h.loads + [EndRestore(h.u)];
    CrashBeginsRestoring(s, h.u, h.k, id, l);
    RunSplits(s2, h.loads, [EndRestore(h.u)]);
    RunsJoin(s2, h.loads, [EndRestore(h.u)], id);
    LoadsKeepRestoring(s2, h.loads, h.u, id, l);
    RestoreMakesLive(Run(s2, h.loads), h.u, id, l);
    assert Run(After(Run(s2, h.loads), EndRestore(h.u)), []) == After(Run(s2, h.loads), EndRestore(h.u));
  }

  /** Goroutine t finishes once after reading a limiter, and its snapshot becomes number k. */
  ghost predicate Saves(m: System, h: History, id: string) {
    && ValidRun(m, [SaveOne(h.t, id)] + h.saving)
    && EndSnapshot(h.t) !in h.saving
    && h.k == |Run(m, [SaveOne(h.t, id)] + h.saving).snapshots|
  }

  /** What it reads is the limiter the client is using. */
  ghost predicate SavesLiveLimiter(m: System, h: History, id: string) {
    Saves(m, h, id) && id in m.limiters && m.threads[h.t].todo[id] == m.limiters[id]
  }

  lemma SaveReadsLimiter(m: System, t: nat, id: string)
    requires Enabled(m, SaveOne(t, id))
    ensures t in m.threads && m.threads[t].Saving? && id in m.threads[t].todo && m.threads[t].todo[id] in m.heap
    ensures HasSaved(After(m, SaveOne(t, id)), t, id, m.heap[m.threads[t].todo[id]])
  {
    hide Save;
  }

  /**
   Whatever happens before the crash, reconfigurations and restores included, the snapshot holds
   the value that was read.
   */
  lemma LostStepsSnapshot(m: System, h: History, id: string)
    requires ValidRun(m, Lost(h, id)) && Crash !in h.saving && Saves(m, h, id)
    ensures Snapshotted(Run(m, Lost(h, id)), h.k, id, m.heap[m.threads[h.t].todo[id]])
  {
    hide After, Enabled, HasSaved, Snapshotted, CallsOf, AdmittedTimes;
    var save, done, all := [SaveOne(h.t, id)], [EndSnapshot(h.t)], Lost(h, id);
    assert all == (save + h.saving) + (done + h.waiting);
    RunSplits(m, save + h.saving, done + h.waiting);
    RunsJoin(m, save + h.saving, done + h.waiting, id);
    RunSplits(m, save, h.saving);
    RunsJoin(m, save, h.saving, id);
    assert (save + h.saving)[0] == save[0];
    SaveReadsLimiter(m, h.t, id);
    var l := m.heap[m.threads[h.t].todo[id]];
    var s1, s2 := Run(m, save), Run(m, save + h.saving);
    assert s1 == After(m, save[0]);
    SavedLasts(s1, h.saving, h.t, id, l);
    assert (done + h.waiting)[0] == done[0] && (done + h.waiting)[1..] == h.waiting;
    SavedIsSnapshotted(s2, h.t, id, l);
    SnapshotsLast(After(s2, done[0]), h.waiting, h.k, id, l);
  }

  lemma SparedHasNoCrash(h: History, id: string)
    requires SparesAll(Lost(h, id), id)
    ensures Crash !in h.saving
  {
    forall j | 0 <= j < |h.saving|
      ensures h.saving[j] != Crash
    {
      assert Lost(h, id)[j + 1] == h.saving[j];
    }
  }

  /** The state in which the client's limiter is saved. */
  function AtSave(s: System, h: History): System
    requires ValidRun(s, h.before)
  {
    Run(s, h.before)
  }

  function AtCrash(s: System, h: History, id: string): System
    requires ValidRun(s, h.before) && ValidRun(AtSave(s, h), Lost(h, id))
  {
    Run(AtSave(s, h), Lost(h, id))
  }

  /** The state in which the new process starts to serve. */
  function AtRestart(s: System, h: History, id: string): System
    requires ValidRun(s, h.before) && ValidRun(AtSave(s, h), Lost(h, id))
    requires ValidRun(AtCrash(s, h, id), Restart(h))
  {
    Run(AtCrash(s, h, id), Restart(h))
  }

  /** The client has a limiter all along, is not reconfigured, and the history is one the system can take. */
  ghost predicate Recovers(s: System, h: History, id: string) {
    && Fits(s) && Live(s, id)
    && ValidRun(s, h.before) && SparesAll(h.before, id)
    && ValidRun(AtSave(s, h), Lost(h, id)) && SparesAll(Lost(h, id), id) && SavesLiveLimiter(AtSave(s, h), h, id)
    && ValidRun(AtCrash(s, h, id), Restart(h)) && OnlyLoads(h.loads, h.u)
    && ValidRun(AtRestart(s, h, id), h.after) && SparesAll(h.after, id)
  }

  /** The client's calls outside what the crash undoes. */
  function SurvivingCalls(s: System, h: History, id: string): seq<int>
    requires Recovers(s, h, id)
  {
    CallsOf(s, h.before, id) + CallsOf(AtRestart(s, h, id), h.after, id)
  }

  /** The readings of the admissions the crash undoes. */
  function ForgottenTimes(s: System, h: History, id: string): seq<int>
    requires Recovers(s, h, id)
  {
    AdmittedTimes(AtSave(s, h), Lost(h, id), id)
  }

  /** The number of admissions the crash undoes. */
  function Forgotten(s: System, h: History, id: string): nat
    requires Recovers(s, h, id)
  {
    |ForgottenTimes(s, h, id)|
  }

  /** The readings of the admissions outside what the crash undoes. */
  function SurvivingTimes(s: System, h: History, id: string): seq<int>
    requires Recovers(s, h, id)
  {
    AdmittedTimes(s, h.before, id) + AdmittedTimes(AtRestart(s, h, id), h.after, id)
  }

  lemma PhasesAddUp(s: System, h: History, id: string)
    requires Recovers(s, h, id)
    ensures ValidRun(s, Steps(h, id))
    ensures AdmittedTimes(s, Steps(h, id), id)
         == AdmittedTimes(s, h.before, id) + ForgottenTimes(s, h, id) + AdmittedTimes(AtRestart(s, h, id), h.after, id)
    ensures Run(s, Steps(h, id)) == Run(AtRestart(s, h, id), h.after)
  {
    hide Fits, Live, SparesAll, SavesLiveLimiter, OnlyLoads, AdmittedTimes, CallsOf, Run, ValidRun;
    hide Lost, Restart;
    RunsJoin(s, h.before, Lost(h, id), id);
    RunsJoin(s, h.before + Lost(h, id), Restart(h), id);
    RunsJoin(s, h.before + Lost(h, id) + Restart(h), h.after, id);
    RestartAdmitsNothing(AtCrash(s, h, id), h, id);
  }

  lemma RestartAdmitsNothing(s: System, h: History, id: string)
    requires ValidRun(s, Restart(h)) && OnlyLoads(h.loads, h.u)
    ensures AdmittedTimes(s, Restart(h), id) == []
  {
    NothingAsked(s, Restart(h), id);
  }

  /**
   Recovery in every interleaving, for both algorithms: apart from the admissions that the crash
   makes it forget, the client is served by one uninterrupted run of the limiter it began with.
   */
  lemma SurvivorsAreOneRun(s: System, h: History, id: string)
    requires Recovers(s, h, id)
    ensures ValidRun(s, Steps(h, id))
    ensures SurvivingTimes(s, h, id) == RunLog(s.heap[s.limiters[id]], SurvivingCalls(s, h, id))
    ensures AdmittedIn(s, Steps(h, id), id)
         == RunAdmitted(s.heap[s.limiters[id]], SurvivingCalls(s, h, id)) + Forgotten(s, h, id)
    ensures var m, l := AtSave(s, h), s.heap[s.limiters[id]];
            && id in m.limiters && m.limiters[id] in m.heap
            && m.heap[m.limiters[id]] == RunValue(l, CallsOf(s, h.before, id))
            && ForgottenTimes(s, h, id) == RunLog(m.heap[m.limiters[id]], CallsOf(m, Lost(h, id), id))
            && LiveWith(AtRestart(s, h, id), id, m.heap[m.limiters[id]])
  {
    hide Fits, Lost, Restart, AdmittedTimes, CallsOf, Run, ValidRun, SparesAll, OnlyLoads, RunLog, RunValue;
    PhasesAddUp(s, h, id);
    LiveRun(s, h.before, id);
    RunKeepsFit(s, h.before);
    var m := AtSave(s, h);
    SparedHasNoCrash(h, id);
    LostStepsSnapshot(m, h, id);
    LiveRun(m, Lost(h, id), id);
    RunKeepsFit(m, Lost(h, id));
    RestartBringsBack(AtCrash(s, h, id), h, id, m.heap[m.limiters[id]]);
    RunKeepsFit(AtCrash(s, h, id), Restart(h));
    var z := AtRestart(s, h, id);
    LiveRun(z, h.after, id);
    Limiters.RunsJoin(s.heap[s.limiters[id]], CallsOf(s, h.before, id), CallsOf(z, h.after, id));
  }

  lemma BucketRunBound(b: TokenBuckets.BucketState, times: seq<int>, from: int, to: int)
    requires BucketRuns.Within(times, from, to) && b.capacity >= 0.0 && b.refillRate >= 0.0
    ensures RunAdmitted(Bucket(b), times) as real <= b.capacity + b.refillRate * Seconds(to - from)
  {
    hide RunLog, Seconds, BucketRuns.Admitted;
    RunIsBucketRun(b, times);
    BucketRuns.AdmittedWithin(b, times, from, to);
  }

  lemma BucketRunKeepsParameters(b: TokenBuckets.BucketState, times: seq<int>)
    ensures var l := RunValue(Bucket(b), times);
            l.Bucket? && l.bucket.capacity == b.capacity && l.bucket.refillRate == b.refillRate
  {
    hide RunValue;
    RunIsBucketRun(b, times);
    BucketRuns.StateAtKeepsParameters(b, times, |times|);
  }

  /**
   The recovery bound for a token bucket: over any interval that spans the restart the client is
   admitted at most the capacity, what accrues over the interval, and the forgotten admissions; and
   those are at most the capacity and what accrues between the reading of the bucket and the crash.
   */
  lemma CrashRecoveryBound(
      s: System, h: History, id: string, b: TokenBuckets.BucketState, from: int, to: int, saved: int, crashed: int)
    requires Recovers(s, h, id) && s.heap[s.limiters[id]] == Bucket(b) && b.capacity >= 0.0 && b.refillRate >= 0.0
    requires BucketRuns.Within(SurvivingCalls(s, h, id), from, to)
    requires BucketRuns.Within(CallsOf(AtSave(s, h), Lost(h, id), id), saved, crashed)
    ensures ValidRun(s, Steps(h, id))
    ensures AdmittedIn(s, Steps(h, id), id) as real
         <= b.capacity + b.refillRate * Seconds(to - from) + Forgotten(s, h, id) as real
    ensures Forgotten(s, h, id) as real <= b.capacity + b.refillRate * Seconds(crashed - saved)
  {
    hide Fits, Live, Lost, Restart, Steps, SparesAll, OnlyLoads, SurvivingCalls, AdmittedIn, AdmittedTimes;
    hide CallsOf, Run, ValidRun, BucketRuns.Within, RunLog, RunValue, Seconds;
    SurvivorsAreOneRun(s, h, id);
    BucketRunBound(b, SurvivingCalls(s, h, id), from, to);
    BucketRunKeepsParameters(b, CallsOf(s, h.before, id));
    var m := AtSave(s, h);
    BucketRunBound(m.heap[m.limiters[id]].bucket, CallsOf(m, Lost(h, id), id), saved, crashed);
  }

  lemma IntervalsAddUp(s: System, h: History, id: string, lo: int, hi: int)
    requires Recovers(s, h, id) && ValidRun(s, Steps(h, id))
    ensures CountIn(AdmittedTimes(s, Steps(h, id), id), lo, hi)
         == CountIn(SurvivingTimes(s, h, id), lo, hi) + CountIn(ForgottenTimes(s, h, id), lo, hi)
  {
    hide Fits, Live, SparesAll, SavesLiveLimiter, OnlyLoads, CallsOf, Run, ValidRun, CountIn;
    hide Lost, Restart, Steps, AdmittedTimes;
    PhasesAddUp(s, h, id);
    var a, f := AdmittedTimes(s, h.before, id), ForgottenTimes(s, h, id);
    var c := AdmittedTimes(AtRestart(s, h, id), h.after, id);
    CountInJoins(a + f, c, lo, hi);
    CountInJoins(a, f, lo, hi);
    CountInJoins(a, c, lo, hi);
  }

  /**
   The recovery bound for a sliding window, made new and then called as `prior` says before the
   interval begins: in every closed interval, spanning the restart or not, the client is admitted at
   most what an uninterrupted window admits there and what the crash forgets there; and the latter
   is itself within the former bound.
   */
  lemma WindowRecoveryBound(
      s: System, h: History, id: string, w: SlidingWindows.WindowState, prior: seq<int>, lo: int, hi: int)
    requires Recovers(s, h, id) && s.heap[s.limiters[id]] == RunValue(Window(w), prior) && lo <= hi
    requires WindowRuns.FreshRun(w, prior + SurvivingCalls(s, h, id))
    requires WindowRuns.FreshRun(w, prior + CallsOf(s, h.before, id) + CallsOf(AtSave(s, h), Lost(h, id), id))
    ensures ValidRun(s, Steps(h, id))
    ensures var bound := WindowRuns.PerWindow(w.limit) * (WindowRuns.WindowsFor(hi - lo, w.window) + 1);
            && CountIn(AdmittedTimes(s, Steps(h, id), id), lo, hi + 1)
               <= bound + CountIn(ForgottenTimes(s, h, id), lo, hi + 1)
            && CountIn(ForgottenTimes(s, h, id), lo, hi + 1) <= bound
  {
    hide Fits, Live, Lost, Restart, Steps, SparesAll, OnlyLoads, SurvivingCalls, AdmittedTimes, CallsOf, Run, ValidRun;
    hide WindowRuns.FreshRun, WindowRuns.PerWindow, WindowRuns.WindowsFor, RunLog, RunValue, CountIn;
    hide SurvivingTimes, ForgottenTimes;
    SurvivorsAreOneRun(s, h, id);
    IntervalsAddUp(s, h, id, lo, hi + 1);
    WindowRate(w, prior, SurvivingCalls(s, h, id), lo, hi);
    var before, m := CallsOf(s, h.before, id), AtSave(s, h);
    Limiters.RunsJoin(Window(w), prior, before);
    WindowRate(w, prior + before, CallsOf(m, Lost(h, id), id), lo, hi);
  }

  /** One crash after another: each history begins where the restart of the one before left off. */
  ghost predicate RecoversAll(s: System, hs: seq<History>, id: string)
    decreases |hs|
  {
    && hs != [] && Recovers(s, hs[0], id)
    && (|hs| > 1 ==> hs[0].after == [] && RecoversAll(AtRestart(s, hs[0], id), hs[1..], id))
  }

  /** The whole run. */
  function AllSteps(hs: seq<History>, id: string): seq<Step> {
    if hs == [] then [] else Steps(hs[0], id) + AllSteps(hs[1..], id)
  }

  /** The client's calls outside what any of the crashes undoes. */
  function AllSurvivingCalls(s: System, hs: seq<History>, id: string): seq<int>
    requires RecoversAll(s, hs, id)
    decreases |hs|
  {
    if |hs| == 1 then
      SurvivingCalls(s, hs[0], id)
    else
      CallsOf(s, hs[0].before, id) + AllSurvivingCalls(AtRestart(s, hs[0], id), hs[1..], id)
  }

  /** The number of admissions the crashes undo, taken together. */
  function AllForgotten(s: System, hs: seq<History>, id: string): nat
    requires RecoversAll(s, hs, id)
    decreases |hs|
  {
    if |hs| == 1 then
      Forgotten(s, hs[0], id)
    else
      Forgotten(s, hs[0], id) + AllForgotten(AtRestart(s, hs[0], id), hs[1..], id)
  }

  /** A history that ends with its restart. */
  lemma EndsWithRestart(s: System, h: History, id: string)
    requires Recovers(s, h, id) && h.after == []
    ensures ValidRun(s, Steps(h, id)) && Run(s, Steps(h, id)) == AtRestart(s, h, id)
    ensures SurvivingCalls(s, h, id) == CallsOf(s, h.before, id)
  {
    hide Fits, Live, SparesAll, SavesLiveLimiter, OnlyLoads, Lost, Restart, Steps, AdmittedTimes;
    PhasesAddUp(s, h, id);
    assert CallsOf(AtRestart(s, h, id), [], id) == [];
  }

  /**
   Recovery from any number of crashes: apart from what they make the manager forget, the client is
   served by one uninterrupted run of the limiter it began with.
   */
  lemma {:induction false} AllSurvivorsAreOneRun(s: System, hs: seq<History>, id: string)
    requires RecoversAll(s, hs, id)
    ensures Live(s, id) && ValidRun(s, AllSteps(hs, id))
    ensures AdmittedIn(s, AllSteps(hs, id), id)
         == RunAdmitted(s.heap[s.limiters[id]], AllSurvivingCalls(s, hs, id)) + AllForgotten(s, hs, id)
    decreases |hs|
  {
    hide Fits, Lost, Restart, Steps, AdmittedTimes, CallsOf, Run, ValidRun, SparesAll, OnlyLoads, RunLog, RunValue;
    var h, rest := hs[0], hs[1..];
    var l := s.heap[s.limiters[id]];
    SurvivorsAreOneRun(s, h, id);
    if |hs| == 1 {
      assert AllSteps(hs, id) == Steps(h, id) + [];
      assert AllSteps(hs, id) == Steps(h, id);
    } else {
      hide SavesLiveLimiter;
      EndsWithRestart(s, h, id);
      var z := AtRestart(s, h, id);
      AllSurvivorsAreOneRun(z, rest, id);
      RunsJoin(s, Steps(h, id), AllSteps(rest, id), id);
      Limiters.RunsJoin(l, CallsOf(s, h.before, id), AllSurvivingCalls(z, rest, id));
    }
  }

  /**
   The bound after any number of crashes: capacity, what accrues over the interval, and what each of
   the crashes forgets.
   */
  lemma CrashesRecoveryBound(
      s: System, hs: seq<History>, id: string, b: TokenBuckets.BucketState, from: int, to: int)
    requires RecoversAll(s, hs, id) && Live(s, id) && s.heap[s.limiters[id]] == Bucket(b)
    requires b.capacity >= 0.0 && b.refillRate >= 0.0
    requires BucketRuns.Within(AllSurvivingCalls(s, hs, id), from, to)
    ensures ValidRun(s, AllSteps(hs, id))
    ensures AdmittedIn(s, AllSteps(hs, id), id) as real
         <= b.capacity + b.refillRate * Seconds(to - from) + AllForgotten(s, hs, id) as real
  {
    hide RecoversAll, AllSteps, AllSurvivingCalls, AllForgotten, AdmittedIn, AdmittedTimes, ValidRun;
    hide BucketRuns.Within, RunLog, Seconds;
    AllSurvivorsAreOneRun(s, hs, id);
    BucketRunBound(b, AllSurvivingCalls(s, hs, id), from, to);
  }

  /** Loading limiters is all that a restore does between its beginning and its end. */
  lemma LoadsAreLoads(u: nat, ids: seq<string>, addresses: seq<nat>)
    requires |addresses| == |ids|
    ensures OnlyLoads(LoadOnes(u, ids, addresses), u)
  {
  }

  lemma {:induction false} SavesAreSpared(t: nat, ids: seq<string>, id: string)
    ensures SparesAll(SaveOnes(t, ids), id) && EndSnapshot(t) !in SaveOnes(t, ids)
  {
    if ids != [] {
      SavesAreSpared(t, ids[1..], id);
    }
  }

  /** A snapshot of everyone that begins now, a crash as soon as it is finished, and its restore. */
  function Plainly(s: System, t: nat, u: nat, id: string, others: seq<string>, addresses: seq<nat>): History
    requires |addresses| == 1 + |others|
  {
    History([BeginSnapshot(t)], t, SaveOnes(t, others), [], u, |s.snapshots|,
            LoadOnes(u, [id] + others, addresses), [])
  }

  lemma OneStepRun(s: System, step: Step)
    requires Enabled(s, step)
    ensures ValidRun(s, [step]) && Run(s, [step]) == After(s, step)
  {
    RunOne(s, step, []);
    assert [step] + [] == [step];
  }

  lemma EndAddsSnapshot(s: System, t: nat)
    requires Enabled(s, EndSnapshot(t))
    ensures |After(s, EndSnapshot(t)).snapshots| == |s.snapshots| + 1
  {
  }

  lemma LostIsSpared(h: History, id: string)
    requires SparesAll(h.saving, id) && h.waiting == []
    ensures SparesAll(Lost(h, id), id)
  {
    var lost := Lost(h, id);
    forall j | 0 <= j < |lost|
      ensures Spares(lost[j], id)
    {
      if 1 <= j < 1 + |h.saving| {
        assert lost[j] == h.saving[j - 1];
      }
    }
  }

  lemma BeginCollects(s: System, t: nat, id: string)
    requires Enabled(s, BeginSnapshot(t)) && Live(s, id)
    ensures var m := After(s, BeginSnapshot(t));
            && id in m.limiters && t in m.threads && m.threads[t].Saving?
            && id in m.threads[t].todo && m.threads[t].todo[id] == m.limiters[id]
  {
  }

  lemma SnapshotBringsEveryoneBack(s: System)
    requires Fits(s)
    ensures LoadedLimiters(SnapshotOf(Contents(s))).Keys == s.limiters.Keys
  {
    hide Fits;
    LimitersAreOnHeap(s);
    assert Contents(s).limiters.Keys == s.limiters.Keys;
  }

  lemma RestartIsPossible(z: System, h: History, ids: seq<string>, addresses: seq<nat>)
    requires |addresses| == |ids| && Unused(addresses, map[]) && h.loads == LoadOnes(h.u, ids, addresses)
    requires h.k < |z.snapshots| && Lists(ids, LoadedLimiters(z.snapshots[h.k]).Keys)
    ensures ValidRun(z, Restart(h))
  {
    hide LoadedLimiters, Lists, Unused, Contents;
    UninterruptedRestore(After(z, Crash), h.u, h.k, ids, addresses);
    RunOne(z, Crash, RestoreSteps(h.u, h.k, ids, addresses));
    assert Restart(h) == [Crash] + RestoreSteps(h.u, h.k, ids, addresses);
  }

  /** The steps that save everyone once the snapshot has begun. */
  lemma LostIsPossible(s: System, h: History, id: string, others: seq<string>)
    requires Fits(s) && Live(s, id) && h.t !in s.threads && Lists([id] + others, s.limiters.Keys)
    requires h.before == [BeginSnapshot(h.t)] && h.saving == SaveOnes(h.t, others) && h.waiting == []
    requires h.k == |s.snapshots|
    ensures ValidRun(s, h.before) && AtSave(s, h) == After(s, BeginSnapshot(h.t))
    ensures ValidRun(AtSave(s, h), Lost(h, id)) && SavesLiveLimiter(AtSave(s, h), h, id)
    ensures AtCrash(s, h, id).snapshots == s.snapshots + [SnapshotOf(Contents(s))]
  {
    hide Fits, Lists, SnapshotOf, Contents, Live;
    var ids, m := [id] + others, After(s, BeginSnapshot(h.t));
    var saves := [SaveOne(h.t, id)] + h.saving;
    UninterruptedSnapshot(s, h.t, ids);
    assert ids[1..] == others;
    assert SaveOnes(h.t, ids) == saves;
    assert SnapshotSteps(h.t, ids) == h.before + Lost(h, id);
    OneStepRun(s, BeginSnapshot(h.t));
    RunSplits(s, h.before, Lost(h, id));
    RunJoins(s, h.before, Lost(h, id));
    assert Lost(h, id) == saves + [EndSnapshot(h.t)];
    RunSplits(m, saves, [EndSnapshot(h.t)]);
    RunJoins(m, saves, [EndSnapshot(h.t)]);
    assert Enabled(Run(m, saves), EndSnapshot(h.t));
    OneStepRun(Run(m, saves), EndSnapshot(h.t));
    EndAddsSnapshot(Run(m, saves), h.t);
    SavesAreSpared(h.t, others, id);
    BeginCollects(s, h.t, id);
  }

  /**
   Recovery is within reach: in every reachable state a snapshot that a free goroutine begins can be
   finished, and after a crash restored, so that a client with a limiter recovers.
   */
  lemma RecoveryIsPossible(s: System, t: nat, u: nat, id: string, others: seq<string>, addresses: seq<nat>)
    requires Fits(s) && Live(s, id) && t !in s.threads && Lists([id] + others, s.limiters.Keys)
    requires |addresses| == 1 + |others| && Unused(addresses, map[])
    ensures Recovers(s, Plainly(s, t, u, id, others, addresses), id)
  {
    hide Fits, Live, Lists, Unused, SnapshotOf, Contents, LoadedLimiters, Lost, Restart, SavesLiveLimiter;
    var h := Plainly(s, t, u, id, others, addresses);
    LostIsPossible(s, h, id, others);
    SavesAreSpared(t, others, id);
    LostIsSpared(h, id);
    SnapshotBringsEveryoneBack(s);
    RestartIsPossible(AtCrash(s, h, id), h, [id] + others, addresses);
    LoadsAreLoads(u, [id] + others, addresses);
  }

  /** So there always is such a history. */
  lemma SomeRecovery(s: System, t: nat, u: nat, id: string) returns (h: History)
    requires Fits(s) && Live(s, id) && t !in s.threads
    ensures Recovers(s, h, id) && h.t == t && h.u == u
  {
    var others := Listing(s.limiters.Keys - {id});
    var addresses := seq(1 + |others|, j requires 0 <= j < 1 + |others| => j);
    h := Plainly(s, t, u, id, others, addresses);
    assert forall c :: c in [id] + others <==> c == id || c in others;
    RecoveryIsPossible(s, t, u, id, others, addresses);
  }
}
