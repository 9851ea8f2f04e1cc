/**
 Snapshots and restores taken step by step: alone they are the atomic operations, and whatever runs
 beside a snapshot, every limiter that was there at its beginning is in it.
 */
module Snapshots {
  import opened ClientRuns
  import opened Configs
  import opened Limiters
  import opened ManagerInterleavings
  import opened Managers
  import opened Wrappers

  /** ids lists these clients, each once, in some order. */
  ghost predicate Lists(ids: seq<string>, clients: set<string>) {
    && (forall j, k :: 0 <= j < k < |ids| ==> ids[j] != ids[k])
    && forall id :: id in ids <==> id in clients
  }

  lemma ListsRest(ids: seq<string>, clients: set<string>)
    requires Lists(ids, clients) && ids != []
    ensures ids[0] in clients && Lists(ids[1..], clients - {ids[0]})
  {
    forall id | id in ids[1..]
      ensures id != ids[0]
    {
      var k :| 0 <= k < |ids[1..]| && ids[1..][k] == id;
      assert ids[k + 1] == id;
    }
    forall id | id in ids && id != ids[0]
      ensures id in ids[1..]
    {
      var k :| 0 <= k < |ids| && ids[k] == id;
      assert ids[1..][k - 1] == id;
    }
  }

  /** Any set of clients can be listed. */
  lemma {:induction false} Listing(clients: set<string>) returns (ids: seq<string>)
    ensures Lists(ids, clients)
    decreases clients
  {
    if clients == {} {
      ids := [];
    } else {
      var id :| id in clients;
      var rest := Listing(clients - {id});
      ids := [id] + rest;
    }
  }

  lemma ListsNothing(clients: set<string>)
    requires Lists([], clients)
    ensures clients == {}
  {
    var none: seq<string> := [];
    assert forall id :: id in clients <==> id in none;
  }

  function SaveOnes(t: nat, ids: seq<string>): seq<Step> {
    if ids == [] then [] else [SaveOne(t, ids[0])] + SaveOnes(t, ids[1..])
  }

  function SnapshotSteps(t: nat, ids: seq<string>): seq<Step> {
    [BeginSnapshot(t)] + SaveOnes(t, ids) + [EndSnapshot(t)]
  }

  /** The persisted forms of the limiters that are still to be saved. */
  function SavedForms(todo: map<string, nat>, heap: map<nat, LimiterValue>): map<string, LimiterState> {
    map id | id in todo && todo[id] in heap :: Save(heap[todo[id]])
  }

  lemma OneForm(todo: map<string, nat>, heap: map<nat, LimiterValue>, states: map<string, LimiterState>, id: string)
    requires id in todo && todo[id] in heap
    ensures states[id := Save(heap[todo[id]])] + SavedForms(todo - {id}, heap) == states + SavedForms(todo, heap)
  {
    hide Save;
  }

  /** The saves of a snapshot in a row. */
  lemma {:induction false} SavesInARow(s: System, t: nat, ids: seq<string>)
    requires t in s.threads && s.threads[t].Saving? && Lists(ids, s.threads[t].todo.Keys)
    requires forall id :: id in s.threads[t].todo ==> s.threads[t].todo[id] in s.heap
    ensures ValidRun(s, SaveOnes(t, ids))
    ensures var pc := s.threads[t];
            Run(s, SaveOnes(t, ids))
            == Moved(s, t, Saving(pc.configs, map[], pc.states + SavedForms(pc.todo, s.heap)))
    decreases |ids|
  {
    hide Save, Lists, SavedForms;
    var pc := s.threads[t];
    if ids == [] {
      ListsNothing(pc.todo.Keys);
      NoForms(pc.todo, s.heap, pc.states);
      assert pc.todo == map[];
      assert s.threads[t := pc] == s.threads;
    } else {
      ListsRest(ids, pc.todo.Keys);
      var s' := AfterSave(s, t, ids[0]);
      assert (pc.todo - {ids[0]}).Keys == pc.todo.Keys - {ids[0]};
      SavesInARow(s', t, ids[1..]);
      OneForm(pc.todo, s.heap, pc.states, ids[0]);
      RunOne(s, SaveOne(t, ids[0]), SaveOnes(t, ids[1..]));
      MovedTwice(s, t, s'.threads[t], Saving(pc.configs, map[], pc.states + SavedForms(pc.todo, s.heap)));
    }
  }

  lemma NoForms(todo: map<string, nat>, heap: map<nat, LimiterValue>, states: map<string, LimiterState>)
    requires todo.Keys == {}
    ensures states + SavedForms(todo, heap) == states
  {
  }

  lemma MovedTwice(s: System, t: nat, via: Pc, to: Pc)
    ensures Moved(Moved(s, t, via), t, to) == Moved(s, t, to)
  {
    assert s.threads[t := via][t := to] == s.threads[t := to];
  }

  /** What has been saved is what the manager's limiters are worth. */
  lemma FormsAreSnapshot(s: System)
    requires Fits(s)
    ensures PersistedState(s.configs, map[] + SavedForms(s.limiters, s.heap)) == SnapshotOf(Contents(s))
  {
    hide Save, Fits;
    LimitersAreOnHeap(s);
    var meaning := Meaning(s.limiters, s.heap);
    assert forall id :: id in s.limiters ==> id in meaning && meaning[id] == s.heap[s.limiters[id]];
    assert map[] + SavedForms(s.limiters, s.heap) == SnapshotOf(Contents(s)).limiters;
  }

  /** The steps of a snapshot, with nothing in between, are the atomic snapshot. */
  lemma UninterruptedSnapshot(s: System, t: nat, ids: seq<string>)
    requires Fits(s) && t !in s.threads && Lists(ids, s.limiters.Keys)
    ensures ValidRun(s, SnapshotSteps(t, ids))
    ensures Run(s, SnapshotSteps(t, ids)) == s.(snapshots := s.snapshots + [SnapshotOf(Contents(s))])
  {
    hide Save, Lists, Fits, SavedForms, SnapshotOf, Contents;
    var begun := Saving(s.configs, s.limiters, map[]);
    var done := Saving(s.configs, map[], map[] + SavedForms(s.limiters, s.heap));
    var s1 := Moved(s, t, begun);
    LimitersAreOnHeap(s);
    SavesInARow(s1, t, ids);
    MovedTwice(s, t, begun, done);
    var s2 := Moved(s, t, done);
    FormsAreSnapshot(s);
    assert (s.threads[t := done]) - {t} == s.threads;
    RunOne(s2, EndSnapshot(t), []);
    assert [EndSnapshot(t)] + [] == [EndSnapshot(t)];
    RunJoins(s1, SaveOnes(t, ids), [EndSnapshot(t)]);
    RunOne(s, BeginSnapshot(t), SaveOnes(t, ids) + [EndSnapshot(t)]);
    assert SnapshotSteps(t, ids) == [BeginSnapshot(t)] + (SaveOnes(t, ids) + [EndSnapshot(t)]);
  }

  // Whatever runs beside it.

  /** A snapshot of these configurations and these clients is being taken. */
  ghost predicate Underway(s: System, t: nat, configs: map<string, Config>, clients: set<string>) {
    && t in s.threads && s.threads[t].Saving?
    && var pc := s.threads[t];
       && pc.configs == configs
       && pc.todo.Keys + pc.states.Keys == clients && pc.todo.Keys !! pc.states.Keys
       && forall id :: id in pc.states ==> Load(pc.states[id]).Some?
  }

  lemma OneMoreSaved(s: System, t: nat, id: string, configs: map<string, Config>, clients: set<string>)
    requires Enabled(s, SaveOne(t, id)) && Underway(s, t, configs, clients)
    ensures Underway(After(s, SaveOne(t, id)), t, configs, clients)
  {
  }

  lemma OnlySaves(s: System, step: Step)
    requires Enabled(s, step) && !step.Crash? && !step.SetConfig? && !step.RemoveClient?
    requires step.t in s.threads && s.threads[step.t].Saving?
    ensures step.SaveOne? || step.EndSnapshot?
  {
  }

  lemma StepKeepsUnderway(s: System, step: Step, t: nat, configs: map<string, Config>, clients: set<string>)
    requires Enabled(s, step) && !step.Crash? && step != EndSnapshot(t) && Underway(s, t, configs, clients)
    ensures Underway(After(s, step), t, configs, clients)
  {
    hide After, Enabled, Load;
    if step.SetConfig? || step.RemoveClient? || step.t != t {
      OthersStay(s, step, t);
    } else {
      OnlySaves(s, step);
      OneMoreSaved(s, t, step.id, configs, clients);
    }
  }

  lemma {:induction false} RunKeepsUnderway(
      s: System, steps: seq<Step>, t: nat, configs: map<string, Config>, clients: set<string>)
    requires ValidRun(s, steps) && NoCrash(steps) && EndSnapshot(t) !in steps && Underway(s, t, configs, clients)
    ensures Underway(Run(s, steps), t, configs, clients)
    decreases steps
  {
    hide After, Enabled, Underway;
    if steps != [] {
      assert !steps[0].Crash? && steps[0] in steps;
      StepKeepsUnderway(s, steps[0], t, configs, clients);
      RunKeepsUnderway(After(s, steps[0]), steps[1..], t, configs, clients);
    }
  }

  lemma BeginIsUnderway(s: System, t: nat)
    requires Enabled(s, BeginSnapshot(t))
    ensures Underway(After(s, BeginSnapshot(t)), t, s.configs, s.limiters.Keys)
  {
  }

  /**
   Nothing is missed and nothing gets stuck: from the beginning of a snapshot on, whatever runs beside
   it, each client that had a limiter then has been saved or can be, and once all are it can end.
   */
  lemma EveryoneCanBeSaved(s: System, t: nat, steps: seq<Step>, id: string)
    requires Fits(s) && Enabled(s, BeginSnapshot(t))
    requires ValidRun(After(s, BeginSnapshot(t)), steps) && NoCrash(steps) && EndSnapshot(t) !in steps
    ensures var z := Run(After(s, BeginSnapshot(t)), steps);
            && t in z.threads && z.threads[t].Saving? && z.threads[t].configs == s.configs
            && (id in s.limiters <==> id in z.threads[t].states || Enabled(z, SaveOne(t, id)))
            && ((forall c :: c in s.limiters ==> c in z.threads[t].states) ==> Enabled(z, EndSnapshot(t)))
  {
    hide Fits, After, Underway, Run, ValidRun, NoCrash;
    var s1 := After(s, BeginSnapshot(t));
    BeginIsUnderway(s, t);
    StepKeepsFit(s, BeginSnapshot(t));
    RunKeepsFit(s1, steps);
    RunKeepsUnderway(s1, steps, t, s.configs, s.limiters.Keys);
    SavableWhenUnderway(Run(s1, steps), t, s.configs, s.limiters.Keys, id);
  }

  lemma SavableWhenUnderway(s: System, t: nat, configs: map<string, Config>, clients: set<string>, id: string)
    requires Fits(s) && Underway(s, t, configs, clients)
    ensures t in s.threads && s.threads[t].Saving? && s.threads[t].configs == configs
    ensures id in clients <==> id in s.threads[t].states || Enabled(s, SaveOne(t, id))
    ensures (forall c :: c in clients ==> c in s.threads[t].states) ==> Enabled(s, EndSnapshot(t))
  {
    hide BuiltFor, Consistent, Load;
    assert PcFits(s, s.threads[t]);
    if forall c :: c in clients ==> c in s.threads[t].states {
      assert s.threads[t].todo.Keys == {};
      assert s.threads[t].todo == map[];
    }
  }

  lemma EndOfUnderway(s: System, t: nat, configs: map<string, Config>, clients: set<string>)
    requires Enabled(s, EndSnapshot(t)) && Underway(s, t, configs, clients)
    ensures var s' := After(s, EndSnapshot(t));
            && s'.snapshots != []
            && var p := s'.snapshots[|s'.snapshots| - 1];
               p.configs == configs && p.limiters.Keys == clients && LoadedLimiters(p).Keys == clients
  {
    hide Load;
    assert s.threads[t].todo.Keys == {};
  }

  /**
   Completeness: whatever runs between its beginning and its end, reconfigurations and restores
   included, a snapshot has the configurations of its beginning and a limiter to bring back for exactly
   the clients that had one then.
   */
  lemma SnapshotIsComplete(s: System, t: nat, steps: seq<Step>)
    requires Enabled(s, BeginSnapshot(t))
    requires ValidRun(After(s, BeginSnapshot(t)), steps) && NoCrash(steps) && EndSnapshot(t) !in steps
    requires Enabled(Run(After(s, BeginSnapshot(t)), steps), EndSnapshot(t))
    ensures var z := After(Run(After(s, BeginSnapshot(t)), steps), EndSnapshot(t));
            && z.snapshots != []
            && var p := z.snapshots[|z.snapshots| - 1];
               && p.configs == s.configs
               && p.limiters.Keys == s.limiters.Keys && LoadedLimiters(p).Keys == s.limiters.Keys
  {
    hide After, Underway, Run, ValidRun, Enabled, NoCrash, LoadedLimiters;
    var s1 := After(s, BeginSnapshot(t));
    BeginIsUnderway(s, t);
    RunKeepsUnderway(s1, steps, t, s.configs, s.limiters.Keys);
    EndOfUnderway(Run(s1, steps), t, s.configs, s.limiters.Keys);
  }

  /** No goroutine is ever stuck: in every state that can be reached it can take the step it has come to. */
  lemma NoGoroutineIsStuck(s: System, t: nat)
    requires Fits(s)
    ensures t !in s.threads ==>
              && Enabled(s, BeginSnapshot(t))
              && (forall k :: 0 <= k < |s.snapshots| ==> Enabled(s, BeginRestore(t, k)))
              && forall id, created, a: nat :: a !in s.heap ==> Enabled(s, GetLimiter(t, id, created, a))
    ensures t in s.threads ==>
              match s.threads[t]
              case Holding(_, _) => forall now :: Enabled(s, Ask(t, now))
              case Decided(_, _) => Enabled(s, Record(t))
              case Saving(_, todo, _) =>
                && (forall id :: id in todo ==> Enabled(s, SaveOne(t, id)))
                && (todo == map[] ==> Enabled(s, EndSnapshot(t)))
              case Loading(_, ids, _) =>
                && (forall id, a: nat :: id in ids && a !in s.heap ==> Enabled(s, LoadOne(t, id, a)))
                && (ids == {} ==> Enabled(s, EndRestore(t)))
  {
    hide BuiltFor, Consistent, LoadedLimiters;
    if t in s.threads {
      assert PcFits(s, s.threads[t]);
    }
  }

  // Restores.

  function LoadOnes(u: nat, ids: seq<string>, addresses: seq<nat>): (loads: seq<Step>)
    requires |addresses| == |ids|
    ensures |loads| == |ids| && forall j :: 0 <= j < |loads| ==> loads[j] == LoadOne(u, ids[j], addresses[j])
  {
    seq(|ids|, j requires 0 <= j < |ids| => LoadOne(u, ids[j], addresses[j]))
  }

  function RestoreSteps(u: nat, k: nat, ids: seq<string>, addresses: seq<nat>): seq<Step>
    requires |addresses| == |ids|
  {
    [BeginRestore(u, k)] + LoadOnes(u, ids, addresses) + [EndRestore(u)]
  }

  /** Addresses no object is at yet, all different. */
  ghost predicate Unused(addresses: seq<nat>, heap: map<nat, LimiterValue>) {
    && (forall j, k :: 0 <= j < k < |addresses| ==> addresses[j] != addresses[k])
    && forall j :: 0 <= j < |addresses| ==> addresses[j] !in heap
  }

  /** z is s with a goroutine u that has built a limiter for each of ids, at these addresses. */
  ghost predicate HasBuilt(z: System, s: System, u: nat, ids: seq<string>, addresses: seq<nat>)
    requires |addresses| == |ids| && u in s.threads && s.threads[u].Loading?
  {
    && z == s.(heap := z.heap, owner := z.owner, threads := z.threads)
    && u in z.threads && z.threads == s.threads[u := z.threads[u]] && z.threads[u].Loading?
    && var pc, pc' := s.threads[u], z.threads[u];
       && pc'.p == pc.p && pc'.ids == {}
       && (forall id :: id in pc'.built <==> id in pc.built || id in ids)
       && (forall id :: id in pc.built && id !in ids ==> pc'.built[id] == pc.built[id])
       && (forall a :: a in s.heap ==> a in z.heap && z.heap[a] == s.heap[a])
       && forall j :: 0 <= j < |ids| ==>
            && ids[j] in LoadedLimiters(pc.p) && ids[j] in pc'.built && pc'.built[ids[j]] == addresses[j]
            && addresses[j] in z.heap && z.heap[addresses[j]] == LoadedLimiters(pc.p)[ids[j]]
  }

  lemma {:induction false} LoadsInARow(s: System, u: nat, ids: seq<string>, addresses: seq<nat>)
    requires |addresses| == |ids| && Unused(addresses, s.heap)
    requires u in s.threads && s.threads[u].Loading? && Lists(ids, s.threads[u].ids)
    requires s.threads[u].ids <= LoadedLimiters(s.threads[u].p).Keys
    ensures ValidRun(s, LoadOnes(u, ids, addresses))
    ensures HasBuilt(Run(s, LoadOnes(u, ids, addresses)), s, u, ids, addresses)
    decreases |ids|
  {
    hide LoadedLimiters;
    var pc := s.threads[u];
    if ids == [] {
      ListsNothing(pc.ids);
      assert LoadOnes(u, ids, addresses) == [];
      assert s.threads[u := pc] == s.threads;
    } else {
      ListsRest(ids, pc.ids);
      var id, a := ids[0], addresses[0];
      var s' := AfterLoad(s, u, id, a);
      LoadsInARow(s', u, ids[1..], addresses[1..]);
      assert LoadOnes(u, ids, addresses) == [LoadOne(u, id, a)] + LoadOnes(u, ids[1..], addresses[1..]);
      RunOne(s, LoadOne(u, id, a), LoadOnes(u, ids[1..], addresses[1..]));
      var z := Run(s', LoadOnes(u, ids[1..], addresses[1..]));
      BuiltOneMore(z, s, s', u, ids, addresses);
    }
  }

  lemma BuiltOneMore(z: System, s: System, s': System, u: nat, ids: seq<string>, addresses: seq<nat>)
    requires |addresses| == |ids| > 0 && Unused(addresses, s.heap)
    requires u in s.threads && s.threads[u].Loading? && Lists(ids, s.threads[u].ids)
    requires Enabled(s, LoadOne(u, ids[0], addresses[0])) && s' == AfterLoad(s, u, ids[0], addresses[0])
    requires HasBuilt(z, s', u, ids[1..], addresses[1..])
    ensures HasBuilt(z, s, u, ids, addresses)
  {
    hide LoadedLimiters;
    ListsRest(ids, s.threads[u].ids);
    var pc, pc' := s.threads[u], z.threads[u];
    assert s.threads[u := s'.threads[u]][u := pc'] == s.threads[u := pc'];
    assert forall id :: id in ids <==> id == ids[0] || id in ids[1..];
    forall j | 0 <= j < |ids|
      ensures && ids[j] in LoadedLimiters(pc.p) && ids[j] in pc'.built && pc'.built[ids[j]] == addresses[j]
              && addresses[j] in z.heap && z.heap[addresses[j]] == LoadedLimiters(pc.p)[ids[j]]
    {
      if j > 0 {
        assert ids[j] == ids[1..][j - 1] && addresses[j] == addresses[1..][j - 1];
      }
    }
  }

  /** The steps of a restore, with nothing in between, are the atomic restore. */
  lemma UninterruptedRestore(s: System, u: nat, k: nat, ids: seq<string>, addresses: seq<nat>)
    requires u !in s.threads && k < |s.snapshots| && Lists(ids, LoadedLimiters(s.snapshots[k]).Keys)
    requires |addresses| == |ids| && Unused(addresses, s.heap)
    ensures ValidRun(s, RestoreSteps(u, k, ids, addresses))
    ensures var z := Run(s, RestoreSteps(u, k, ids, addresses));
            && Contents(z) == AfterRestore(Contents(s), s.snapshots[k])
            && z.threads == s.threads && z.snapshots == s.snapshots
  {
    hide LoadedLimiters, Lists, Unused, Contents, HasBuilt;
    var s1 := After(s, BeginRestore(u, k));
    LoadsInARow(s1, u, ids, addresses);
    var s2 := Run(s1, LoadOnes(u, ids, addresses));
    RestoreEndsWithContents(s, s2, u, k, ids, addresses);
    RunOne(s2, EndRestore(u), []);
    assert [EndRestore(u)] + [] == [EndRestore(u)];
    RunJoins(s1, LoadOnes(u, ids, addresses), [EndRestore(u)]);
    RunOne(s, BeginRestore(u, k), LoadOnes(u, ids, addresses) + [EndRestore(u)]);
    assert RestoreSteps(u, k, ids, addresses)
        == [BeginRestore(u, k)] + (LoadOnes(u, ids, addresses) + [EndRestore(u)]);
  }

  lemma MeaningOfBuilt(z: System, s: System, u: nat, ids: seq<string>, addresses: seq<nat>)
    requires |addresses| == |ids| && u in s.threads && s.threads[u].Loading? && s.threads[u].built == map[]
    requires HasBuilt(z, s, u, ids, addresses) && Lists(ids, LoadedLimiters(s.threads[u].p).Keys)
    ensures Meaning(z.threads[u].built, z.heap) == LoadedLimiters(s.threads[u].p)
  {
    hide LoadedLimiters;
    var built, loaded := z.threads[u].built, LoadedLimiters(s.threads[u].p);
    forall id | id in loaded
      ensures id in built && built[id] in z.heap && z.heap[built[id]] == loaded[id]
    {
      assert id in ids;
      var j :| 0 <= j < |ids| && ids[j] == id;
    }
  }

  lemma RestoreEndsWithContents(s: System, s2: System, u: nat, k: nat, ids: seq<string>, addresses: seq<nat>)
    requires u !in s.threads && k < |s.snapshots| && Lists(ids, LoadedLimiters(s.snapshots[k]).Keys)
    requires |addresses| == |ids| && HasBuilt(s2, After(s, BeginRestore(u, k)), u, ids, addresses)
    ensures Enabled(s2, EndRestore(u))
    ensures var z := After(s2, EndRestore(u));
            && Contents(z) == AfterRestore(Contents(s), s.snapshots[k])
            && z.threads == s.threads && z.snapshots == s.snapshots
  {
    hide LoadedLimiters, Meaning, Lists;
    MeaningOfBuilt(s2, After(s, BeginRestore(u, k)), u, ids, addresses);
    assert s.threads[u := s2.threads[u]] - {u} == s.threads;
    assert After(s, BeginRestore(u, k)).threads[u := s2.threads[u]] == s.threads[u := s2.threads[u]];
  }

  lemma MeaningWithout(limiters: map<string, nat>, heap: map<nat, LimiterValue>, id: string)
    ensures Meaning(limiters - {id}, heap) == Meaning(limiters, heap) - {id}
  {
  }

  /** Each reconfiguration is one step, and that step is the atomic operation. */
  lemma ReconfigurationIsOneStep(s: System, id: string, cfg: Config)
    ensures Valid(cfg) ==>
              Contents(After(s, SetConfig(id, cfg))) == AfterSetConfig(Contents(s), id, cfg)
    ensures Contents(After(s, RemoveClient(id))) == AfterRemove(Contents(s), id)
  {
    hide Meaning;
    MeaningWithout(s.limiters, s.heap, id);
  }
}
