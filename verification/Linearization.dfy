/**
 Requests, reconfigurations and restores that interleave freely, as one client sees them: its replies
 are those of a sequence of atomic operations. A request takes effect on the limiter it got, even when
 the client has been reconfigured since; so it counts before that reconfiguration, which came after
 the request had begun.
 */
module Linearization {
  import opened ClientRuns
  import opened Configs
  import opened Limiters
  import opened ManagerInterleavings
  import opened Managers
  import opened Wrappers
  import MR = ManagerRuns

  /**
   The time between two operations that start the client over. `op` is the one it began with, `view`
   what the client then had, `limiter` the address of the limiter its requests of this era got; calls
   and replies are those of this limiter, in the order of its lock, however late they came.
   */
  datatype Era = Era(
    op: Option<MR.Op>,
    view: MR.View,
    limiter: Option<nat>,
    created: int,
    calls: seq<int>,
    replies: seq<Decision>)

  const FIRST_ERA := Era(None, MR.View(None, None), None, 0, [], [])

  function Opened(op: MR.Op, view: MR.View, limiter: Option<nat>): Era {
    Era(Some(op), view, limiter, 0, [], [])
  }

  function Called(e: Era, a: nat, now: int, d: Decision): Era {
    if e.limiter == Some(a) then e.(calls := e.calls + [now], replies := e.replies + [d]) else e
  }

  /** A decision is entered where its limiter belongs. */
  function Entered(account: seq<Era>, a: nat, now: int, d: Decision): (entered: seq<Era>)
    ensures |entered| == |account|
  {
    seq(|account|, k requires 0 <= k < |account| => Called(account[k], a, now, d))
  }

  /** What a restore gives the client. */
  function RestoredView(p: PersistedState, id: string): MR.View {
    MR.View(
      if id in p.configs then Some(p.configs[id]) else None,
      if id in LoadedLimiters(p) then Some(LoadedLimiters(p)[id]) else None)
  }

  /** How a step of the system changes the client's account. */
  function Book(account: seq<Era>, s: System, step: Step, id: string): (booked: seq<Era>)
    requires account != [] && Enabled(s, step)
    ensures |booked| >= |account|
  {
    match step
    case GetLimiter(_, other, created, address) =>
      if other == id && id !in s.limiters then
        var last := |account| - 1;
        account[last := account[last].(limiter := Some(address), created := created)]
      else
        account
    case Ask(t, now) =>
      if s.threads[t].id == id then
        Entered(account, s.threads[t].address, now, Decide(s.heap[s.threads[t].address], now))
      else
        account
    case SetConfig(other, cfg) =>
      if other == id then account + [Opened(MR.SetConfig(id, cfg), MR.View(Some(cfg), None), None)] else account
    case RemoveClient(other) =>
      if other == id then account + [Opened(MR.RemoveClient(id), MR.View(None, None), None)] else account
    case EndRestore(t) =>
      var pc := s.threads[t];
      account + [Opened(MR.Restore(pc.p), RestoredView(pc.p, id), if id in pc.built then Some(pc.built[id]) else None)]
    case _ => account
  }

  /** The client's account of a run. */
  function Account(account: seq<Era>, s: System, steps: seq<Step>, id: string): (final: seq<Era>)
    requires account != [] && ValidRun(s, steps)
    ensures |final| >= |account|
    decreases steps
  {
    if steps == [] then
      account
    else
      Account(Book(account, s, steps[0], id), After(s, steps[0]), steps[1..], id)
  }

  /** The limiter an era's requests meet first. */
  function Begun(e: Era): LimiterValue {
    if e.view.limiter.Some? then
      e.view.limiter.value
    else
      NewLimiter(if e.view.cfg.Some? then e.view.cfg.value else DEFAULT_CONFIG, e.created)
  }

  /** What a limiter decides, call after call. */
  function Replay(l: LimiterValue, calls: seq<int>): seq<Decision> {
    if calls == [] then
      []
    else
      var first, last := calls[..|calls| - 1], calls[|calls| - 1];
      Replay(l, first) + [Decide(RunValue(l, first), last)]
  }

  lemma ReplayOneMore(l: LimiterValue, calls: seq<int>, now: int)
    ensures Replay(l, calls + [now]) == Replay(l, calls) + [Decide(RunValue(l, calls), now)]
    ensures RunValue(l, calls + [now]) == Next(RunValue(l, calls), now)
  {
    hide RunValue, Next, Decide;
    assert (calls + [now])[..|calls|] == calls;
    RunsJoin(l, calls, [now]);
    OneRunValue(RunValue(l, calls), now);
  }

  lemma OneRunValue(l: LimiterValue, now: int)
    ensures RunValue(l, [now]) == Next(l, now)
  {
    OneEarlierCall(l, now, []);
    assert [now] + [] == [now];
  }

  // The invariant that ties the account to the system.

  /** The limiter of an era is the client's, and has come as far as the era's calls have brought it. */
  ghost predicate Kept(s: System, e: Era, id: string) {
    && |e.replies| == |e.calls|
    && (e.view.limiter.Some? ==> e.limiter.Some?)
    && match e.limiter
       case None => e.calls == []
       case Some(a) =>
         && a in s.heap && a in s.owner && s.owner[a] == id
         && s.heap[a] == RunValue(Begun(e), e.calls)
         && e.replies == Replay(Begun(e), e.calls)
  }

  ghost predicate AllKept(s: System, account: seq<Era>, id: string) {
    && (forall k :: 0 <= k < |account| ==> Kept(s, account[k], id))
    && forall j, k :: 0 <= j < k < |account| && account[j].limiter.Some? ==> account[j].limiter != account[k].limiter
  }

  /** The last era is the one the client is in. */
  ghost predicate Current(s: System, account: seq<Era>, id: string) {
    && account != []
    && var e := account[|account| - 1];
       && e.limiter == (if id in s.limiters then Some(s.limiters[id]) else None)
       && e.view.cfg == (if id in s.configs then Some(s.configs[id]) else None)
  }

  ghost predicate InSomeEra(account: seq<Era>, a: nat) {
    exists k :: 0 <= k < |account| && account[k].limiter == Some(a)
  }

  /** Every request in progress holds the limiter of an era. */
  ghost predicate AllHeld(s: System, account: seq<Era>, id: string) {
    forall t :: t in s.threads && s.threads[t].Holding? && s.threads[t].id == id ==>
      InSomeEra(account, s.threads[t].address)
  }

  /** What a restore in progress has built for the client is untouched, and nobody else's. */
  ghost predicate Untouched(s: System, account: seq<Era>, t: nat, id: string) {
    t in s.threads && s.threads[t].Loading? ==>
      var pc := s.threads[t];
      && (id in LoadedLimiters(pc.p) ==> id in pc.ids || id in pc.built)
      && (id in pc.built ==>
            var a := pc.built[id];
            && id in LoadedLimiters(pc.p) && a in s.heap && a in s.owner && s.owner[a] == id
            && s.heap[a] == LoadedLimiters(pc.p)[id] && !InSomeEra(account, a)
            && forall u :: u in s.threads && u != t && s.threads[u].Loading? && id in s.threads[u].built ==>
                 s.threads[u].built[id] != a)
  }

  ghost predicate AllUntouched(s: System, account: seq<Era>, id: string) {
    forall t :: Untouched(s, account, t, id)
  }

  ghost predicate Sound(s: System, account: seq<Era>, id: string) {
    && Current(s, account, id) && AllKept(s, account, id)
    && AllHeld(s, account, id) && AllUntouched(s, account, id)
  }

  lemma StartIsSound(id: string)
    ensures Sound(START, [FIRST_ERA], id)
  {
  }

  lemma OwnerStays(s: System, step: Step, a: nat)
    requires Enabled(s, step) && !step.Crash? && a in s.heap && a in s.owner
    ensures a in After(s, step).owner && After(s, step).owner[a] == s.owner[a]
  {
    hide NewLimiter, Limiters.Next, Limiters.Admits, LoadedLimiters, ConfigFor, Save, StatsFor, Recorded;
  }

  lemma EntriesStay(s: System, step: Step)
    requires Enabled(s, step) && !step.Crash? && !step.GetLimiter?
    requires !step.SetConfig? && !step.RemoveClient? && !step.EndRestore?
    ensures After(s, step).limiters == s.limiters && After(s, step).configs == s.configs
  {
    hide NewLimiter, Limiters.Next, Limiters.Admits, LoadedLimiters, ConfigFor, Save, StatsFor, Recorded;
  }

  lemma LastEraStays(account: seq<Era>, s: System, step: Step, id: string)
    requires account != [] && Enabled(s, step) && !step.GetLimiter?
    requires !step.SetConfig? && !step.RemoveClient? && !step.EndRestore?
    ensures var last, booked := |account| - 1, Book(account, s, step, id);
            && |booked| == |account|
            && booked[last].limiter == account[last].limiter && booked[last].view == account[last].view
  {
    hide Decide;
  }

  lemma GetIsCurrent(account: seq<Era>, s: System, step: Step, id: string)
    requires Enabled(s, step) && step.GetLimiter? && Current(s, account, id)
    ensures Current(After(s, step), Book(account, s, step, id), id)
  {
    hide NewLimiter, ConfigFor;
  }

  lemma ReopeningIsCurrent(account: seq<Era>, s: System, step: Step, id: string)
    requires Enabled(s, step) && Current(s, account, id)
    requires step.SetConfig? || step.RemoveClient? || step.EndRestore?
    requires step.EndRestore? ==> (id in s.threads[step.t].built <==> id in LoadedLimiters(s.threads[step.t].p))
    ensures Current(After(s, step), Book(account, s, step, id), id)
  {
    hide LoadedLimiters;
  }

  lemma BookIsCurrent(account: seq<Era>, s: System, step: Step, id: string)
    requires Enabled(s, step) && !step.Crash? && Current(s, account, id)
    requires step.EndRestore? ==> (id in s.threads[step.t].built <==> id in LoadedLimiters(s.threads[step.t].p))
    ensures Current(After(s, step), Book(account, s, step, id), id)
  {
    hide After, LoadedLimiters;
    if step.GetLimiter? {
      GetIsCurrent(account, s, step, id);
    } else if step.SetConfig? || step.RemoveClient? || step.EndRestore? {
      ReopeningIsCurrent(account, s, step, id);
    } else {
      EntriesStay(s, step);
      LastEraStays(account, s, step, id);
    }
  }

  /** Eras keep their limiters, and new limiters are those of the step. */
  lemma BookKeepsLimiters(account: seq<Era>, s: System, step: Step, id: string, a: nat)
    requires Enabled(s, step) && !step.Crash? && Current(s, account, id)
    ensures InSomeEra(account, a) ==> InSomeEra(Book(account, s, step, id), a)
    ensures InSomeEra(Book(account, s, step, id), a) ==>
              || InSomeEra(account, a)
              || (step.GetLimiter? && step.id == id && id !in s.limiters && a == step.address)
              || (step.EndRestore? && id in s.threads[step.t].built && a == s.threads[step.t].built[id])
  {
    hide NewLimiter, Limiters.Next, Limiters.Admits, Decide, LoadedLimiters, ConfigFor, Save, StatsFor, Recorded;
    hide InSomeEra, After;
    var booked := Book(account, s, step, id);
    if InSomeEra(account, a) {
      var k := EraOf(account, a);
      assert booked[k].limiter == Some(a);
      ThatIsAnEra(booked, k, a);
    }
    if InSomeEra(booked, a) {
      var k := EraOf(booked, a);
      if k < |account| && account[k].limiter == Some(a) {
        ThatIsAnEra(account, k, a);
      }
    }
  }

  lemma EraOf(account: seq<Era>, a: nat) returns (k: nat)
    requires InSomeEra(account, a)
    ensures k < |account| && account[k].limiter == Some(a)
  {
    k :| 0 <= k < |account| && account[k].limiter == Some(a);
  }

  lemma ThatIsAnEra(account: seq<Era>, k: nat, a: nat)
    requires k < |account| && account[k].limiter == Some(a)
    ensures InSomeEra(account, a)
  {
  }

  /** Another client's request never asks a limiter of this one. */
  lemma ForeignAsk(s: System, step: Step, a: nat, id: string)
    requires Fits(s) && Enabled(s, step) && step.Ask? && s.threads[step.t].id != id
    requires a in s.owner && s.owner[a] == id
    ensures s.threads[step.t].address != a
  {
    hide BuiltFor, Consistent, Serves;
    assert PcFits(s, s.threads[step.t]);
  }

  /** An era whose limiter the step does not ask is kept. */
  lemma EraStays(s: System, step: Step, e: Era, id: string)
    requires Enabled(s, step) && !step.Crash? && Kept(s, e, id)
    requires step.Ask? ==> e.limiter != Some(s.threads[step.t].address)
    ensures Kept(After(s, step), e, id)
  {
    hide After, RunValue, Replay, Begun;
    if e.limiter.Some? {
      HeapStays(s, step, e.limiter.value);
      OwnerStays(s, step, e.limiter.value);
    }
  }

  /** An era whose limiter is asked is kept with the new call. */
  lemma EraCalled(s: System, step: Step, e: Era, id: string)
    requires Enabled(s, step) && step.Ask? && Kept(s, e, id) && e.limiter == Some(s.threads[step.t].address)
    ensures var a := s.threads[step.t].address;
            Kept(After(s, step), Called(e, a, step.now, Decide(s.heap[a], step.now)), id)
  {
    hide After, RunValue, Replay, Decide, Limiters.Next, NewLimiter;
    var a := s.threads[step.t].address;
    HeapStays(s, step, a);
    OwnerStays(s, step, a);
    ReplayOneMore(Begun(e), e.calls, step.now);
  }

  lemma AskKeepsEras(account: seq<Era>, s: System, step: Step, id: string)
    requires Enabled(s, step) && step.Ask? && account != [] && AllKept(s, account, id) && Fits(s)
    ensures AllKept(After(s, step), Book(account, s, step, id), id)
  {
    hide After, Kept, Fits, Decide;
    var a, s', booked := s.threads[step.t].address, After(s, step), Book(account, s, step, id);
    forall k | 0 <= k < |booked|
      ensures Kept(s', booked[k], id) && booked[k].limiter == account[k].limiter
    {
      var e := account[k];
      if e.limiter == Some(a) {
        KeptIsOwned(s, e, id);
        if s.threads[step.t].id != id {
          ForeignAsk(s, step, a, id);
        } else {
          EraCalled(s, step, e, id);
        }
      } else {
        EraStays(s, step, e, id);
      }
    }
  }

  lemma KeptIsOwned(s: System, e: Era, id: string)
    requires Kept(s, e, id) && e.limiter.Some?
    ensures e.limiter.value in s.heap && e.limiter.value in s.owner && s.owner[e.limiter.value] == id
  {
  }

  lemma OtherStepsKeepEras(account: seq<Era>, s: System, step: Step, id: string, k: nat)
    requires Enabled(s, step) && !step.Crash? && !step.Ask? && AllKept(s, account, id) && k < |account|
    ensures Kept(After(s, step), account[k], id)
  {
    hide After, Kept;
    EraStays(s, step, account[k], id);
  }

  /** The era in which a limiter is made begins with it. */
  lemma MadeLimiterIsKept(account: seq<Era>, s: System, step: Step, id: string)
    requires Enabled(s, step) && step.GetLimiter? && step.id == id && id !in s.limiters
    requires Current(s, account, id) && AllKept(s, account, id)
    ensures AllKept(After(s, step), Book(account, s, step, id), id)
  {
    hide Kept, Limiters.Next, After;
    var s', booked, last := After(s, step), Book(account, s, step, id), |account| - 1;
    forall k | 0 <= k < |booked|
      ensures Kept(s', booked[k], id)
    {
      if k < last {
        OtherStepsKeepEras(account, s, step, id, k);
      } else {
        MadeEra(s, step, account[last], id);
      }
    }
    forall k | 0 <= k < last && account[k].limiter.Some?
      ensures account[k].limiter != Some(step.address)
    {
      assert Kept(s, account[k], id);
      KeptIsOwned(s, account[k], id);
    }
  }

  lemma MadeEra(s: System, step: Step, e: Era, id: string)
    requires Enabled(s, step) && step.GetLimiter? && step.id == id && id !in s.limiters
    requires Kept(s, e, id) && e.limiter.None?
    requires e.view.cfg == if id in s.configs then Some(s.configs[id]) else None
    ensures Kept(After(s, step), e.(limiter := Some(step.address), created := step.created), id)
  {
    hide NewLimiter, Limiters.Next, Limiters.Admits;
    NoRun(NewLimiter(ConfigFor(s.configs, id), step.created));
  }

  lemma NoRun(l: LimiterValue)
    ensures RunValue(l, []) == l && Replay(l, []) == []
  {
  }

  /** A new era, with nothing or with what a restore has built. */
  lemma OpenedIsKept(account: seq<Era>, s: System, step: Step, id: string, e: Era)
    requires Enabled(s, step) && !step.Crash? && !step.Ask? && AllKept(s, account, id)
    requires e.calls == [] && e.replies == [] && (e.view.limiter.Some? <==> e.limiter.Some?)
    requires e.limiter.Some? ==>
               var a := e.limiter.value;
               && a in s.heap && a in s.owner && s.owner[a] == id && s.heap[a] == e.view.limiter.value
               && !InSomeEra(account, a)
    ensures AllKept(After(s, step), account + [e], id)
  {
    hide Kept, After;
    var s', booked := After(s, step), account + [e];
    forall k | 0 <= k < |booked|
      ensures Kept(s', booked[k], id)
    {
      if k < |account| {
        OtherStepsKeepEras(account, s, step, id, k);
      } else {
        NewEraIsKept(s, e, id);
        EraStays(s, step, e, id);
      }
    }
  }

  lemma NewEraIsKept(s: System, e: Era, id: string)
    requires e.calls == [] && e.replies == [] && (e.view.limiter.Some? <==> e.limiter.Some?)
    requires e.limiter.Some? ==>
               var a := e.limiter.value;
               a in s.heap && a in s.owner && s.owner[a] == id && s.heap[a] == e.view.limiter.value
    ensures Kept(s, e, id)
  {
    hide RunValue, Replay;
    NoRun(Begun(e));
  }

  lemma SameErasAreKept(account: seq<Era>, s: System, step: Step, id: string)
    requires Enabled(s, step) && !step.Crash? && !step.Ask? && AllKept(s, account, id)
    ensures AllKept(After(s, step), account, id)
  {
    hide After, Kept;
    forall k | 0 <= k < |account|
      ensures Kept(After(s, step), account[k], id)
    {
      OtherStepsKeepEras(account, s, step, id, k);
    }
  }

  lemma BookKeepsEras(account: seq<Era>, s: System, step: Step, id: string)
    requires Enabled(s, step) && !step.Crash? && Fits(s) && Sound(s, account, id)
    ensures AllKept(After(s, step), Book(account, s, step, id), id)
  {
    hide After, Fits, Kept, InSomeEra, AllHeld;
    if step.Ask? {
      AskKeepsEras(account, s, step, id);
    } else if step.GetLimiter? && step.id == id && id !in s.limiters {
      MadeLimiterIsKept(account, s, step, id);
    } else if step.SetConfig? {
      SameErasAreKept(account, s, step, id);
      OpenedIsKept(account, s, step, id, Opened(MR.SetConfig(id, step.cfg), MR.View(Some(step.cfg), None), None));
    } else if step.RemoveClient? {
      SameErasAreKept(account, s, step, id);
      OpenedIsKept(account, s, step, id, Opened(MR.RemoveClient(id), MR.View(None, None), None));
    } else if step.EndRestore? {
      var pc := s.threads[step.t];
      assert Untouched(s, account, step.t, id);
      OpenedIsKept(account, s, step, id,
        Opened(MR.Restore(pc.p), RestoredView(pc.p, id), if id in pc.built then Some(pc.built[id]) else None));
    } else {
      SameErasAreKept(account, s, step, id);
    }
  }

  lemma BookKeepsHeld(account: seq<Era>, s: System, step: Step, id: string)
    requires Enabled(s, step) && !step.Crash? && Current(s, account, id) && AllHeld(s, account, id)
    requires Current(After(s, step), Book(account, s, step, id), id)
    ensures AllHeld(After(s, step), Book(account, s, step, id), id)
  {
    hide After, Enabled, Book, InSomeEra;
    var s', booked := After(s, step), Book(account, s, step, id);
    forall u | u in s'.threads && s'.threads[u].Holding? && s'.threads[u].id == id
      ensures InSomeEra(booked, s'.threads[u].address)
    {
      HolderWasOrIsNew(s, step, u);
      if u in s.threads && s'.threads[u] == s.threads[u] {
        BookKeepsLimiters(account, s, step, id, s'.threads[u].address);
      } else {
        ThatIsAnEra(booked, |booked| - 1, s'.threads[u].address);
      }
    }
  }

  /** What a restore in progress has become. */
  lemma LoaderWasOrGoesOn(s: System, step: Step, u: nat)
    requires Enabled(s, step) && !step.Crash?
    requires u in After(s, step).threads && After(s, step).threads[u].Loading?
    ensures var pc := After(s, step).threads[u];
            || (u in s.threads && pc == s.threads[u])
            || (step.BeginRestore? && step.t == u && pc.built == map[] && pc.ids == LoadedLimiters(pc.p).Keys)
            || (step.LoadOne? && step.t == u && u in s.threads && s.threads[u].Loading? && pc.p == s.threads[u].p
                && pc.ids == s.threads[u].ids - {step.id} && pc.built == s.threads[u].built[step.id := step.address]
                && step.id in LoadedLimiters(pc.p))
  {
    hide After, Enabled;
    if step.SetConfig? || step.RemoveClient? || step.t != u {
      OthersStay(s, step, u);
    } else {
      OwnLoad(s, step);
    }
  }

  lemma OwnLoad(s: System, step: Step)
    requires Enabled(s, step) && !step.Crash? && !step.SetConfig? && !step.RemoveClient?
    requires step.t in After(s, step).threads && After(s, step).threads[step.t].Loading?
    ensures var pc := After(s, step).threads[step.t];
            || (step.BeginRestore? && pc.built == map[] && pc.ids == LoadedLimiters(pc.p).Keys)
            || (step.LoadOne? && step.t in s.threads && s.threads[step.t].Loading? && pc.p == s.threads[step.t].p
                && pc.ids == s.threads[step.t].ids - {step.id}
                && pc.built == s.threads[step.t].built[step.id := step.address] && step.id in LoadedLimiters(pc.p))
  {
    hide NewLimiter, Limiters.Next, Limiters.Admits, LoadedLimiters, ConfigFor, Save, StatsFor, Recorded;
  }

  /** A built limiter of the client, seen by itself. */
  ghost predicate Apart(s: System, account: seq<Era>, t: nat, id: string, a: nat, l: LimiterValue) {
    && a in s.heap && a in s.owner && s.owner[a] == id && s.heap[a] == l && !InSomeEra(account, a)
    && forall u :: u in s.threads && u != t && s.threads[u].Loading? && id in s.threads[u].built ==>
         s.threads[u].built[id] != a
  }

  lemma UntouchedIsApart(s: System, account: seq<Era>, t: nat, id: string)
    requires Untouched(s, account, t, id) && t in s.threads && s.threads[t].Loading? && id in s.threads[t].built
    ensures id in LoadedLimiters(s.threads[t].p)
    ensures Apart(s, account, t, id, s.threads[t].built[id], LoadedLimiters(s.threads[t].p)[id])
  {
  }

  /** A built limiter that stays with its restore stays untouched. */
  lemma ApartStays(account: seq<Era>, s: System, step: Step, t: nat, id: string, a: nat, l: LimiterValue)
    requires Enabled(s, step) && !step.Crash? && Fits(s) && Current(s, account, id) && AllHeld(s, account, id)
    requires Apart(s, account, t, id, a, l) && !(step.EndRestore? && step.t == t)
    ensures Apart(After(s, step), Book(account, s, step, id), t, id, a, l)
  {
    hide After, Enabled, Book, InSomeEra, Fits;
    var s', booked := After(s, step), Book(account, s, step, id);
    NotAsked(account, s, step, id, a);
    HeapStays(s, step, a);
    OwnerStays(s, step, a);
    BookKeepsLimiters(account, s, step, id, a);
    NewAddress(s, step, a);
    forall u | u in s'.threads && u != t && s'.threads[u].Loading? && id in s'.threads[u].built
      ensures s'.threads[u].built[id] != a
    {
      LoaderWasOrGoesOn(s, step, u);
    }
  }

  /** Nobody asks a limiter of the client that is in no era. */
  lemma NotAsked(account: seq<Era>, s: System, step: Step, id: string, a: nat)
    requires Enabled(s, step) && Fits(s) && AllHeld(s, account, id) && a in s.owner && s.owner[a] == id
    requires !InSomeEra(account, a)
    ensures step.Ask? ==> s.threads[step.t].address != a
  {
    hide InSomeEra, Fits;
    if step.Ask? && s.threads[step.t].id != id {
      ForeignAsk(s, step, a, id);
    }
  }

  lemma NewAddress(s: System, step: Step, a: nat)
    requires Enabled(s, step) && a in s.heap
    ensures step.GetLimiter? || step.LoadOne? ==> step.address != a
    ensures step.EndRestore? ==> step.t in s.threads && s.threads[step.t].Loading?
  {
  }

  lemma NewlyBuilt(account: seq<Era>, s: System, step: Step, id: string)
    requires Enabled(s, step) && step.LoadOne? && step.id == id
    requires AllKept(s, account, id) && AllUntouched(s, account, id)
    ensures var p := s.threads[step.t].p;
            id in LoadedLimiters(p) && Apart(After(s, step), account, step.t, id, step.address, LoadedLimiters(p)[id])
  {
    hide Kept, LoadedLimiters, After;
    var s' := After(s, step);
    NewObject(s, step);
    NotYetInAnEra(s, account, id, step.address);
    forall u | u in s'.threads && u != step.t && s'.threads[u].Loading? && id in s'.threads[u].built
      ensures s'.threads[u].built[id] != step.address
    {
      OthersStay(s, step, u);
      assert Untouched(s, account, u, id);
    }
  }

  lemma NewObject(s: System, step: Step)
    requires Enabled(s, step) && step.LoadOne?
    ensures var s', a := After(s, step), step.address;
            && a in s'.heap && a in s'.owner && s'.owner[a] == step.id && a !in s.heap
            && step.id in LoadedLimiters(s.threads[step.t].p)
            && s'.heap[a] == LoadedLimiters(s.threads[step.t].p)[step.id]
  {
    hide LoadedLimiters;
  }

  lemma NotYetInAnEra(s: System, account: seq<Era>, id: string, a: nat)
    requires AllKept(s, account, id) && a !in s.heap
    ensures !InSomeEra(account, a)
  {
    hide Kept;
    forall k | 0 <= k < |account|
      ensures account[k].limiter != Some(a)
    {
      if account[k].limiter.Some? {
        KeptIsOwned(s, account[k], id);
      }
    }
  }

  lemma RestoreEnds(s: System, step: Step)
    requires Enabled(s, step) && step.EndRestore?
    ensures step.t !in After(s, step).threads
  {
  }

  lemma LoadLeavesAccount(account: seq<Era>, s: System, step: Step, id: string)
    requires account != [] && Enabled(s, step) && step.LoadOne?
    ensures Book(account, s, step, id) == account
  {
  }

  /** A restore that goes on keeps what it has built for the client apart. */
  lemma LoaderStaysUntouched(account: seq<Era>, s: System, step: Step, t: nat, id: string)
    requires Enabled(s, step) && !step.Crash? && Fits(s) && Sound(s, account, id)
    ensures Untouched(After(s, step), Book(account, s, step, id), t, id)
  {
    hide Fits, Kept, LoadedLimiters, InSomeEra, After, Enabled, Book;
    var s', booked := After(s, step), Book(account, s, step, id);
    if t in s'.threads && s'.threads[t].Loading? {
      LoaderWasOrGoesOn(s, step, t);
      assert Untouched(s, account, t, id);
      if step.EndRestore? && step.t == t {
        RestoreEnds(s, step);
        assert false;
      } else if step.LoadOne? && step.t == t && step.id == id {
        OwnLoad(s, step);
        NewlyBuilt(account, s, step, id);
        LoadLeavesAccount(account, s, step, id);
      } else if t in s.threads && s.threads[t].Loading? && id in s.threads[t].built {
        UntouchedIsApart(s, account, t, id);
        ApartStays(account, s, step, t, id, s.threads[t].built[id], LoadedLimiters(s.threads[t].p)[id]);
      }
    }
  }

  /** A restore that ends has built a limiter for exactly the clients it brings one back for. */
  lemma RestoreIsComplete(s: System, account: seq<Era>, t: nat, id: string)
    requires Enabled(s, EndRestore(t)) && Untouched(s, account, t, id)
    ensures id in s.threads[t].built <==> id in LoadedLimiters(s.threads[t].p)
  {
    hide LoadedLimiters, InSomeEra;
  }

  /** What every step keeps. */
  lemma BookKeepsSound(account: seq<Era>, s: System, step: Step, id: string)
    requires Enabled(s, step) && !step.Crash? && Fits(s) && Sound(s, account, id)
    ensures Sound(After(s, step), Book(account, s, step, id), id)
  {
    hide Fits, Current, AllKept, AllHeld, Untouched, After, Book, LoadedLimiters;
    if step.EndRestore? {
      assert Untouched(s, account, step.t, id);
      RestoreIsComplete(s, account, step.t, id);
    }
    SoundIsNonempty(s, account, id);
    BookIsCurrent(account, s, step, id);
    BookKeepsEras(account, s, step, id);
    BookKeepsHeld(account, s, step, id);
    forall t
      ensures Untouched(After(s, step), Book(account, s, step, id), t, id)
    {
      LoaderStaysUntouched(account, s, step, t, id);
    }
  }

  lemma SoundIsNonempty(s: System, account: seq<Era>, id: string)
    requires Sound(s, account, id)
    ensures account != []
  {
  }

  lemma {:induction false} AccountIsSound(account: seq<Era>, s: System, steps: seq<Step>, id: string)
    requires ValidRun(s, steps) && NoCrash(steps) && Fits(s) && Sound(s, account, id)
    ensures account != [] && Sound(Run(s, steps), Account(account, s, steps, id), id)
    decreases steps
  {
    hide Fits, After, Enabled, Book, Sound;
    SoundIsNonempty(s, account, id);
    if steps != [] {
      assert !steps[0].Crash?;
      BookKeepsSound(account, s, steps[0], id);
      StepKeepsFit(s, steps[0]);
      AccountIsSound(Book(account, s, steps[0], id), After(s, steps[0]), steps[1..], id);
    }
  }

  // The account as a sequence of atomic operations.

  /** The requests of an era, one after another. */
  function Requests(id: string, created: int, calls: seq<int>): seq<MR.Op> {
    if calls == [] then
      []
    else
      Requests(id, created, calls[..|calls| - 1]) + [MR.Allow(id, created, calls[|calls| - 1])]
  }

  function Decisions(replies: seq<Decision>): seq<MR.Reply> {
    if replies == [] then
      []
    else
      Decisions(replies[..|replies| - 1]) + [MR.Decided(replies[|replies| - 1])]
  }

  /** What the operation that begins an era is told. */
  function Acknowledged(op: MR.Op): MR.Reply {
    if op.SetConfig? then MR.Configured(Success(())) else MR.Done
  }

  /** The operation an era begins with, if there is one. */
  function Opening(e: Era): seq<MR.Op> {
    if e.op.Some? then [e.op.value] else []
  }

  /** An era as a sequence of operations. */
  function EraOps(e: Era, id: string): seq<MR.Op> {
    Opening(e) + Requests(id, e.created, e.calls)
  }

  /** What the client is told in it. */
  function EraTold(e: Era): seq<MR.Reply> {
    (if e.op.Some? then [Acknowledged(e.op.value)] else []) + Decisions(e.replies)
  }

  function OpsOf(account: seq<Era>, id: string): seq<MR.Op> {
    if account == [] then [] else EraOps(account[0], id) + OpsOf(account[1..], id)
  }

  /** What the client is told, in the same order. */
  function RepliesOf(account: seq<Era>): seq<MR.Reply> {
    if account == [] then [] else EraTold(account[0]) + RepliesOf(account[1..])
  }

  lemma {:induction false} RepliesJoin(m: ManagerState, a: seq<MR.Op>, b: seq<MR.Op>)
    ensures MR.Replies(m, a + b) == MR.Replies(m, a) + MR.Replies(MR.Run(m, a), b)
    ensures MR.Run(m, a + b) == MR.Run(MR.Run(m, a), b)
    decreases a
  {
    hide MR.After, MR.ReplyTo;
    if a == [] {
      assert a + b == b;
    } else {
      assert (a + b)[0] == a[0] && (a + b)[1..] == a[1..] + b;
      RepliesJoin(MR.After(m, a[0]), a[1..], b);
    }
  }

  lemma OneReply(m: ManagerState, op: MR.Op)
    ensures MR.Replies(m, [op]) == [MR.ReplyTo(m, op)] && MR.Run(m, [op]) == MR.After(m, op)
  {
    hide MR.After, MR.ReplyTo;
    assert [op][1..] == [];
    assert MR.Replies(MR.After(m, op), []) == [];
  }

  /** One more request of an era. */
  lemma RequestReplies(m: ManagerState, id: string, created: int, now: int, l: LimiterValue)
    requires LimiterFor(m, id, created) == l
    ensures MR.ReplyTo(m, MR.Allow(id, created, now)) == MR.Decided(Decide(l, now))
    ensures LimiterFor(MR.After(m, MR.Allow(id, created, now)), id, created) == Limiters.Next(l, now)
  {
  }

  /** Against a manager that has what the era began with, its requests are told what was entered. */
  lemma {:induction false} EraReplies(m: ManagerState, id: string, created: int, calls: seq<int>, l: LimiterValue)
    requires LimiterFor(m, id, created) == l
    ensures MR.Replies(m, Requests(id, created, calls)) == Decisions(Replay(l, calls))
    ensures LimiterFor(MR.Run(m, Requests(id, created, calls)), id, created) == RunValue(l, calls)
  {
    hide MR.After, MR.ReplyTo, LimiterFor, Decide, Limiters.Next, RunValue;
    if calls == [] {
      NoRun(l);
    } else {
      var first, now := calls[..|calls| - 1], calls[|calls| - 1];
      assert calls == first + [now];
      EraReplies(m, id, created, first, l);
      var m', op := MR.Run(m, Requests(id, created, first)), MR.Allow(id, created, now);
      RepliesJoin(m, Requests(id, created, first), [op]);
      OneReply(m', op);
      RequestReplies(m', id, created, now, RunValue(l, first));
      ReplayOneMore(l, first, now);
    }
  }

  /** The era begins with an operation that gives the client what it says. */
  ghost predicate Opens(e: Era, id: string) {
    e.op.Some? && match e.op.value
      case SetConfig(other, cfg) => other == id && Valid(cfg) && e.view == MR.View(Some(cfg), None)
      case RemoveClient(other) => other == id && e.view == MR.View(None, None)
      case Restore(p) => e.view == RestoredView(p, id)
      case _ => false
  }

  /** Eras one after another, the first of them from the start. */
  ghost predicate Story(account: seq<Era>, id: string) {
    && account != [] && account[0].op.None? && account[0].view == MR.View(None, None)
    && forall k :: 0 < k < |account| ==> Opens(account[k], id)
  }

  lemma BookKeepsStory(account: seq<Era>, s: System, step: Step, id: string)
    requires Enabled(s, step) && Story(account, id)
    ensures Story(Book(account, s, step, id), id)
  {
    hide RestoredView, Decide;
  }

  lemma {:induction false} AccountIsStory(account: seq<Era>, s: System, steps: seq<Step>, id: string)
    requires ValidRun(s, steps) && Story(account, id)
    ensures Story(Account(account, s, steps, id), id)
    decreases steps
  {
    hide After, Enabled, Book, Story;
    StoryIsNonempty(account, id);
    if steps != [] {
      BookKeepsStory(account, s, steps[0], id);
      AccountIsStory(Book(account, s, steps[0], id), After(s, steps[0]), steps[1..], id);
    }
  }

  lemma StoryIsNonempty(account: seq<Era>, id: string)
    requires Story(account, id)
    ensures account != []
  {
  }

  lemma OpeningReply(m: ManagerState, e: Era, id: string)
    requires Opens(e, id)
    ensures MR.ReplyTo(m, e.op.value) == Acknowledged(e.op.value)
    ensures MR.ViewOf(MR.After(m, e.op.value), id) == e.view
  {
    hide LoadedLimiters;
  }

  lemma ViewGivesLimiter(m: ManagerState, e: Era, id: string)
    requires MR.ViewOf(m, id) == e.view
    ensures LimiterFor(m, id, e.created) == Begun(e)
  {
  }

  /** An era's replies are its limiter's, call after call. */
  ghost predicate Faithful(e: Era) {
    e.replies == Replay(Begun(e), e.calls)
  }

  lemma KeptIsFaithful(s: System, e: Era, id: string)
    requires Kept(s, e, id)
    ensures Faithful(e)
  {
    hide RunValue;
  }

  /** The operation that begins an era, if there is one, is acknowledged and gives the era its view. */
  lemma OpeningTold(m: ManagerState, e: Era, id: string)
    requires if e.op.Some? then Opens(e, id) else MR.ViewOf(m, id) == e.view
    ensures var opening := Opening(e);
            && MR.Replies(m, opening) == (if e.op.Some? then [Acknowledged(e.op.value)] else [])
            && MR.ViewOf(MR.Run(m, opening), id) == e.view
  {
    hide MR.After, MR.ReplyTo, MR.ViewOf, Opens, Acknowledged;
    if e.op.Some? {
      OpeningReply(m, e, id);
      OneReply(m, e.op.value);
    } else {
      NoOps(m);
    }
  }

  lemma EraIsTold(m: ManagerState, e: Era, id: string)
    requires Faithful(e)
    requires if e.op.Some? then Opens(e, id) else MR.ViewOf(m, id) == e.view
    ensures MR.Replies(m, EraOps(e, id)) == EraTold(e)
  {
    hide MR.After, MR.ReplyTo, MR.ViewOf, MR.Replies, MR.Run, Opens, Begun, Replay, Acknowledged, Decisions, Requests;
    var opening := Opening(e);
    var m1 := MR.Run(m, opening);
    OpeningTold(m, e, id);
    ViewGivesLimiter(m1, e, id);
    EraReplies(m1, id, e.created, e.calls, Begun(e));
    RepliesJoin(m, opening, Requests(id, e.created, e.calls));
  }

  lemma {:induction false} StoryReplies(m: ManagerState, account: seq<Era>, id: string)
    requires forall k :: 0 <= k < |account| ==> Faithful(account[k])
    requires forall k :: 0 <= k < |account| && account[k].op.Some? ==> Opens(account[k], id)
    requires forall k :: 0 < k < |account| ==> account[k].op.Some?
    requires account != [] && account[0].op.None? ==> MR.ViewOf(m, id) == account[0].view
    ensures MR.Replies(m, OpsOf(account, id)) == RepliesOf(account)
    decreases |account|
  {
    hide MR.Replies, MR.Run, MR.ViewOf, Opens, Faithful, EraOps, EraTold;
    NoOps(m);
    if account != [] {
      var e, rest := account[0], account[1..];
      EraIsTold(m, e, id);
      StoryReplies(MR.Run(m, EraOps(e, id)), rest, id);
      RepliesJoin(m, EraOps(e, id), OpsOf(rest, id));
    }
  }

  lemma NoOps(m: ManagerState)
    ensures MR.Replies(m, []) == [] && MR.Run(m, []) == m
  {
  }

  // Nothing is lost.

  /** The decisions the client's requests get, in the order the limiters take them. */
  function Told(s: System, steps: seq<Step>, id: string): seq<Decision>
    requires ValidRun(s, steps)
    decreases steps
  {
    if steps == [] then
      []
    else
      (if Asks(s, steps[0], id) then [Decide(s.heap[s.threads[steps[0].t].address], steps[0].now)] else [])
      + Told(After(s, steps[0]), steps[1..], id)
  }

  function AllReplies(account: seq<Era>): multiset<Decision> {
    if account == [] then multiset{} else multiset(account[0].replies) + AllReplies(account[1..])
  }

  lemma {:induction false} EnteredReplies(account: seq<Era>, a: nat, now: int, d: Decision)
    requires forall j, k :: 0 <= j < k < |account| && account[j].limiter.Some? ==>
               account[j].limiter != account[k].limiter
    ensures AllReplies(Entered(account, a, now, d))
         == AllReplies(account) + if InSomeEra(account, a) then multiset{d} else multiset{}
  {
    if account != [] {
      var rest := account[1..];
      assert Entered(account, a, now, d)[1..] == Entered(rest, a, now, d);
      EnteredReplies(rest, a, now, d);
      LaterEra(account, a);
      if account[0].limiter == Some(a) {
        assert !InSomeEra(rest, a);
      }
    }
  }

  lemma LaterEra(account: seq<Era>, a: nat)
    requires account != []
    ensures InSomeEra(account, a) <==> account[0].limiter == Some(a) || InSomeEra(account[1..], a)
  {
    if InSomeEra(account[1..], a) {
      var k := EraOf(account[1..], a);
      ThatIsAnEra(account, k + 1, a);
    }
    if InSomeEra(account, a) && account[0].limiter != Some(a) {
      var k := EraOf(account, a);
      ThatIsAnEra(account[1..], k - 1, a);
    }
  }

  lemma {:induction false} SameReplies(account: seq<Era>, account': seq<Era>)
    requires |account'| >= |account|
    requires forall k :: 0 <= k < |account| ==> account'[k].replies == account[k].replies
    requires forall k :: |account| <= k < |account'| ==> account'[k].replies == []
    ensures AllReplies(account') == AllReplies(account)
    decreases |account'|
  {
    if account' != [] {
      SameReplies(if account == [] then [] else account[1..], account'[1..]);
    }
  }

  /** A step enters a decision exactly when it takes one. */
  lemma BookReplies(account: seq<Era>, s: System, step: Step, id: string)
    requires Enabled(s, step) && Sound(s, account, id)
    ensures account != []
    ensures AllReplies(Book(account, s, step, id))
         == AllReplies(account)
            + if Asks(s, step, id) then multiset{Decide(s.heap[s.threads[step.t].address], step.now)} else multiset{}
  {
    hide Kept, Untouched, InSomeEra, Decide, AllReplies, RestoredView;
    if Asks(s, step, id) {
      var a := s.threads[step.t].address;
      EnteredReplies(account, a, step.now, Decide(s.heap[a], step.now));
    } else {
      SameReplies(account, Book(account, s, step, id));
    }
  }

  lemma {:induction false} AccountReplies(account: seq<Era>, s: System, steps: seq<Step>, id: string)
    requires ValidRun(s, steps) && NoCrash(steps) && Fits(s) && Sound(s, account, id)
    ensures account != []
    ensures AllReplies(Account(account, s, steps, id)) == AllReplies(account) + multiset(Told(s, steps, id))
    decreases steps
  {
    hide Fits, After, Enabled, Book, Sound, Decide, AllReplies, Asks;
    SoundIsNonempty(s, account, id);
    if steps != [] {
      assert !steps[0].Crash?;
      BookKeepsSound(account, s, steps[0], id);
      BookReplies(account, s, steps[0], id);
      StepKeepsFit(s, steps[0]);
      AccountReplies(Book(account, s, steps[0], id), After(s, steps[0]), steps[1..], id);
    }
  }

  /** The decisions among the replies of a sequence of operations. */
  function DecisionsAmong(replies: seq<MR.Reply>): multiset<Decision> {
    if replies == [] then
      multiset{}
    else
      (if replies[0].Decided? then multiset{replies[0].d} else multiset{}) + DecisionsAmong(replies[1..])
  }

  lemma {:induction false} DecisionsAmongJoin(a: seq<MR.Reply>, b: seq<MR.Reply>)
    ensures DecisionsAmong(a + b) == DecisionsAmong(a) + DecisionsAmong(b)
  {
    if a == [] {
      assert a + b == b;
    } else {
      assert (a + b)[0] == a[0] && (a + b)[1..] == a[1..] + b;
      DecisionsAmongJoin(a[1..], b);
    }
  }

  lemma {:induction false} DecisionsAreReplies(replies: seq<Decision>)
    ensures DecisionsAmong(Decisions(replies)) == multiset(replies)
  {
    if replies != [] {
      var first, last := replies[..|replies| - 1], replies[|replies| - 1];
      assert replies == first + [last];
      DecisionsAreReplies(first);
      DecisionsAmongJoin(Decisions(first), [MR.Decided(last)]);
      assert [MR.Decided(last)][1..] == [];
    }
  }

  lemma OpeningIsNoDecision(op: MR.Op)
    ensures DecisionsAmong([Acknowledged(op)]) == multiset{}
  {
    assert [Acknowledged(op)][1..] == [];
  }

  lemma {:induction false} RepliesHoldAll(account: seq<Era>)
    ensures DecisionsAmong(RepliesOf(account)) == AllReplies(account)
  {
    hide Acknowledged, Decisions;
    if account != [] {
      var e := account[0];
      var opening := if e.op.Some? then [Acknowledged(e.op.value)] else [];
      RepliesHoldAll(account[1..]);
      DecisionsAmongJoin(EraTold(e), RepliesOf(account[1..]));
      DecisionsAmongJoin(opening, Decisions(e.replies));
      DecisionsAreReplies(e.replies);
      if e.op.Some? {
        OpeningIsNoDecision(e.op.value);
      }
    }
  }

  /** The operations other than requests. */
  function Reopenings(ops: seq<MR.Op>): seq<MR.Op> {
    if ops == [] then [] else (if ops[0].Allow? then [] else [ops[0]]) + Reopenings(ops[1..])
  }

  /** What reopens the client's account at this step, if anything. */
  function Reopens(s: System, step: Step, id: string): seq<MR.Op>
    requires Enabled(s, step)
  {
    match step
    case SetConfig(other, cfg) => if other == id then [MR.SetConfig(id, cfg)] else []
    case RemoveClient(other) => if other == id then [MR.RemoveClient(id)] else []
    case EndRestore(t) => [MR.Restore(s.threads[t].p)]
    case _ => []
  }

  /** The client's reconfigurations and the restores of a run, in order. */
  function ReopeningsIn(s: System, steps: seq<Step>, id: string): seq<MR.Op>
    requires ValidRun(s, steps)
    decreases steps
  {
    if steps == [] then [] else Reopens(s, steps[0], id) + ReopeningsIn(After(s, steps[0]), steps[1..], id)
  }

  function OpeningsOf(account: seq<Era>): seq<MR.Op> {
    if account == [] then [] else Opening(account[0]) + OpeningsOf(account[1..])
  }

  lemma {:induction false} ReopeningsJoin(a: seq<MR.Op>, b: seq<MR.Op>)
    ensures Reopenings(a + b) == Reopenings(a) + Reopenings(b)
  {
    if a == [] {
      assert a + b == b;
    } else {
      assert (a + b)[0] == a[0] && (a + b)[1..] == a[1..] + b;
      ReopeningsJoin(a[1..], b);
    }
  }

  lemma {:induction false} RequestsReopenNothing(id: string, created: int, calls: seq<int>)
    ensures Reopenings(Requests(id, created, calls)) == []
  {
    if calls != [] {
      var now := calls[|calls| - 1];
      RequestsReopenNothing(id, created, calls[..|calls| - 1]);
      ReopeningsJoin(Requests(id, created, calls[..|calls| - 1]), [MR.Allow(id, created, now)]);
      assert [MR.Allow(id, created, now)][1..] == [];
    }
  }

  lemma {:induction false} OpsHoldOpenings(account: seq<Era>, id: string)
    requires forall k :: 0 <= k < |account| && account[k].op.Some? ==> Opens(account[k], id)
    ensures Reopenings(OpsOf(account, id)) == OpeningsOf(account)
  {
    hide Requests, RestoredView;
    if account != [] {
      var e := account[0];
      var opening := Opening(e);
      OpsHoldOpenings(account[1..], id);
      ReopeningsJoin(EraOps(e, id), OpsOf(account[1..], id));
      ReopeningsJoin(opening, Requests(id, e.created, e.calls));
      RequestsReopenNothing(id, e.created, e.calls);
      if e.op.Some? {
        OpenerReopens(e, id);
      }
    }
  }

  lemma OpenerReopens(e: Era, id: string)
    requires Opens(e, id)
    ensures Reopenings([e.op.value]) == [e.op.value]
  {
    hide RestoredView;
    assert [e.op.value][1..] == [];
  }

  lemma {:induction false} SameOpenings(account: seq<Era>, account': seq<Era>)
    requires |account'| == |account|
    requires forall k :: 0 <= k < |account| ==> account'[k].op == account[k].op
    ensures OpeningsOf(account') == OpeningsOf(account)
    decreases |account|
  {
    if account != [] {
      SameOpenings(account[1..], account'[1..]);
    }
  }

  lemma {:induction false} OneMoreOpening(account: seq<Era>, e: Era)
    ensures OpeningsOf(account + [e]) == OpeningsOf(account) + Opening(e)
    decreases |account|
  {
    hide Opening;
    if account == [] {
      assert [e][1..] == [];
      assert account + [e] == [e];
      assert OpeningsOf([]) == [];
    } else {
      assert (account + [e])[0] == account[0] && (account + [e])[1..] == account[1..] + [e];
      OneMoreOpening(account[1..], e);
    }
  }

  lemma BookOpenings(account: seq<Era>, s: System, step: Step, id: string)
    requires account != [] && Enabled(s, step)
    ensures OpeningsOf(Book(account, s, step, id)) == OpeningsOf(account) + Reopens(s, step, id)
  {
    hide OpeningsOf, RestoredView, Decide;
    var booked := Book(account, s, step, id);
    if |booked| == |account| {
      SameOpenings(account, booked);
    } else {
      OneMoreOpening(account, booked[|account|]);
      assert booked == account + [booked[|account|]];
    }
  }

  lemma {:induction false} AccountOpenings(account: seq<Era>, s: System, steps: seq<Step>, id: string)
    requires account != [] && ValidRun(s, steps)
    ensures OpeningsOf(Account(account, s, steps, id)) == OpeningsOf(account) + ReopeningsIn(s, steps, id)
    decreases steps
  {
    hide After, Enabled, Book, OpeningsOf, Reopens;
    if steps != [] {
      BookOpenings(account, s, steps[0], id);
      AccountOpenings(Book(account, s, steps[0], id), After(s, steps[0]), steps[1..], id);
    }
  }

  /** The number of decisions that allow. */
  function AllowedAmong(told: seq<Decision>): nat {
    if told == [] then 0 else (if told[0].allowed then 1 else 0) + AllowedAmong(told[1..])
  }

  /** There is a decision for every call, and it allows exactly when the call is admitted. */
  lemma {:induction false} ToldIsDecided(s: System, steps: seq<Step>, id: string)
    requires ValidRun(s, steps)
    ensures |Told(s, steps, id)| == |CallsOf(s, steps, id)|
    ensures AllowedAmong(Told(s, steps, id)) == AdmittedIn(s, steps, id)
    decreases steps
  {
    hide After, Decide, Limiters.Admits;
    if steps != [] {
      var step := steps[0];
      ToldIsDecided(After(s, step), steps[1..], id);
      if Asks(s, step, id) {
        DecisionIsAdmission(s.heap[s.threads[step.t].address], step.now);
        var d, rest := Decide(s.heap[s.threads[step.t].address], step.now), Told(After(s, step), steps[1..], id);
        assert ([d] + rest)[1..] == rest;
      } else {
        NotAskedNotAdmitting(s, step, id);
        assert Told(s, steps, id) == Told(After(s, step), steps[1..], id);
      }
    }
  }

  /** A request joins the era that is current when it gets its limiter. */
  lemma RequestJoinsCurrentEra(account: seq<Era>, s: System, step: Step, id: string)
    requires Enabled(s, step) && step.GetLimiter? && step.id == id && Fits(s) && Sound(s, account, id)
    ensures var s', booked := After(s, step), Book(account, s, step, id);
            && booked != [] && step.t in s'.threads
            && s'.threads[step.t] == Holding(id, s'.limiters[id])
            && booked[|booked| - 1].limiter == Some(s'.limiters[id])
  {
    hide Fits, AllKept, AllHeld, Untouched, NewLimiter;
  }

  /**
   Linearizability under reconfiguration. However requests, reconfigurations, removals, snapshots and
   restores interleave, a client is told what a sequence of atomic operations would tell it: era after
   era the operation that begins it, then the requests that got its limiter. Every decision the client
   got is there, and no other; and so is every reconfiguration and restore, in the order they came.
   */
  lemma Linearizable(steps: seq<Step>, id: string)
    requires ValidRun(START, steps) && NoCrash(steps)
    ensures var account := Account([FIRST_ERA], START, steps, id);
            && MR.Replies(EMPTY, OpsOf(account, id)) == RepliesOf(account)
            && DecisionsAmong(RepliesOf(account)) == multiset(Told(START, steps, id))
            && Reopenings(OpsOf(account, id)) == ReopeningsIn(START, steps, id)
  {
    hide Account, Sound, Fits, OpsOf, RepliesOf, Kept, Told, ValidRun, Run, Faithful;
    var account := Account([FIRST_ERA], START, steps, id);
    StartIsSound(id);
    StartFits();
    AccountIsSound([FIRST_ERA], START, steps, id);
    AccountIsStory([FIRST_ERA], START, steps, id);
    forall k | 0 <= k < |account|
      ensures Faithful(account[k])
    {
      SoundErasAreKept(Run(START, steps), account, id, k);
      KeptIsFaithful(Run(START, steps), account[k], id);
    }
    StoryReplies(EMPTY, account, id);
    AccountReplies([FIRST_ERA], START, steps, id);
    NothingTold();
    RepliesHoldAll(account);
    AccountOpenings([FIRST_ERA], START, steps, id);
    OpsHoldOpenings(account, id);
  }

  lemma StartFits()
    ensures Fits(START)
  {
  }

  lemma SoundErasAreKept(s: System, account: seq<Era>, id: string, k: nat)
    requires Sound(s, account, id) && k < |account|
    ensures Kept(s, account[k], id)
  {
  }

  lemma NothingTold()
    ensures AllReplies([FIRST_ERA]) == multiset{} && OpeningsOf([FIRST_ERA]) == []
  {
    assert [FIRST_ERA][1..] == [];
  }
}
