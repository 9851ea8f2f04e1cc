/** What a sliding window guarantees over whole runs of calls. */
module WindowRuns {
  import opened Admissions
  import opened Configs
  import opened Durations
  import opened Logs
  import opened SlidingWindows
  import Runs

  /** The window after the first k calls of a run. */
  function StateAt(s: WindowState, times: seq<int>, k: nat): WindowState
    requires k <= |times|
  {
    Runs.StateAt(Next, s, times, k)
  }

  function StateAfter(s: WindowState, times: seq<int>): WindowState {
    StateAt(s, times, |times|)
  }

  /** Which calls of a run are admitted. */
  function Decisions(s: WindowState, times: seq<int>): (adm: seq<bool>)
    ensures |adm| == |times|
  {
    Runs.Decisions(Next, Admits, s, times)
  }

  /** The number of calls of a run that are admitted. */
  function Admitted(s: WindowState, times: seq<int>): nat {
    Count(Decisions(s, times), 0, |times|)
  }

  /** The full log: the readings of the admissions among the first k calls. */
  function LogAt(s: WindowState, times: seq<int>, k: nat): seq<int>
    requires k <= |times|
  {
    Runs.LogAt(Next, Admits, s, times, k)
  }

  /** The largest number of admissions one window can hold. */
  function PerWindow(limit: real): nat {
    if Ceil(limit) >= 0 then Ceil(limit) else 0
  }

  /** The number of windows of length w needed to cover d nanoseconds: d / w, rounded up. */
  function WindowsFor(d: int, w: int): nat
    requires w >= 1
    decreases if d <= 0 then 0 else d
  {
    if d <= 0 then 0 else 1 + WindowsFor(d - w, w)
  }

  /** A run of calls on an ordered clock against a newly created window. */
  ghost predicate FreshRun(s: WindowState, times: seq<int>) {
    && s == Fresh(s.limit, s.window, s.windowStart)
    && s.window >= 1
    && Nondecreasing([s.windowStart] + times)
  }

  /** The reading of the clock at the last of the first k calls. */
  function LastAt(s: WindowState, times: seq<int>, k: nat): int
    requires k <= |times|
  {
    if k == 0 then s.windowStart else times[k - 1]
  }

  lemma ClockAdvances(s: WindowState, times: seq<int>, k: nat)
    requires FreshRun(s, times) && 0 < k <= |times|
    ensures LastAt(s, times, k - 1) <= LastAt(s, times, k)
  {
    var all := [s.windowStart] + times;
    assert all[k - 1] == LastAt(s, times, k - 1) && all[k] == LastAt(s, times, k);
  }

  /** After every call of every run the two counters say what the full log says. */
  lemma {:induction false} CountersTrackLog(s: WindowState, times: seq<int>, k: nat)
    requires FreshRun(s, times) && k <= |times|
    ensures Tracks(StateAt(s, times, k), LogAt(s, times, k), LastAt(s, times, k))
  {
    if k > 0 {
      CountersTrackLog(s, times, k - 1);
      ClockAdvances(s, times, k);
      NextKeepsTracking(
        StateAt(s, times, k - 1), LogAt(s, times, k - 1), LastAt(s, times, k - 1), times[k - 1]);
    }
  }

  lemma {:induction false} StateAtKeepsParameters(s: WindowState, times: seq<int>, k: nat)
    requires k <= |times|
    ensures StateAt(s, times, k).limit == s.limit && StateAt(s, times, k).window == s.window
  {
    if k > 0 {
      StateAtKeepsParameters(s, times, k - 1);
    }
  }

  /** An admitted call found the current counter below the limit. */
  lemma AdmittedBelowLimit(s: WindowState, log: seq<int>, last: int, now: int)
    requires Tracks(s, log, last) && last <= now && Admits(s, now)
    ensures Rolled(s, now).currentCount < s.limit
  {
    RollKeepsTracking(s, log, last, now);
    var r := Rolled(s, now);
    assert Weight(r, now) >= 0.0;
    assert r.previousCount * Weight(r, now) >= 0.0;
  }

  ghost predicate Capped(s: WindowState) {
    && s.currentCount <= PerWindow(s.limit) as real
    && s.previousCount <= PerWindow(s.limit) as real
  }

  lemma NextKeepsCap(s: WindowState, log: seq<int>, last: int, now: int)
    requires Tracks(s, log, last) && last <= now && Capped(s)
    ensures Capped(Next(s, now))
  {
    if Admits(s, now) {
      AdmittedBelowLimit(s, log, last, now);
      RollKeepsTracking(s, log, last, now);
      var r := Rolled(s, now);
      CountBelowCeil(CountIn(log, r.windowStart, r.windowStart + r.window), s.limit);
    }
  }

  lemma CountBelowCeil(n: nat, limit: real)
    requires n as real < limit
    ensures n + 1 <= PerWindow(limit)
  {
    CeilBounds(limit);
  }

  /** Each window admits at most ceil(limit) requests. */
  lemma {:induction false} EachWindowCapped(s: WindowState, times: seq<int>, k: nat)
    requires FreshRun(s, times) && k <= |times|
    ensures Capped(StateAt(s, times, k))
  {
    if k > 0 {
      EachWindowCapped(s, times, k - 1);
      CountersTrackLog(s, times, k - 1);
      ClockAdvances(s, times, k);
      NextKeepsCap(
        StateAt(s, times, k - 1), LogAt(s, times, k - 1), LastAt(s, times, k - 1), times[k - 1]);
    }
  }

  /** How far into the current window a reading of the clock lies. */
  function Fraction(s: WindowState, now: int): real
    requires s.window != 0
  {
    (now - s.windowStart) as real / s.window as real
  }

  lemma WeightIsRest(s: WindowState, now: int)
    requires s.window >= 1
    ensures Weight(s, now) == 1.0 - Fraction(s, now)
    ensures now < s.windowStart + s.window ==> Fraction(s, now) < 1.0
    ensures s.windowStart <= now ==> 0.0 <= Fraction(s, now)
  {
    var w, e, f := s.window as real, (now - s.windowStart) as real, Fraction(s, now);
    var g := Weight(s, now);
    assert f * w == e && g * w == w - e;
    CancelFactor(g, 1.0 - f, w);
  }

  lemma AdmittedAtFraction(s: WindowState, log: seq<int>, last: int, now: int)
    requires Tracks(s, log, last) && last <= now && Admits(s, now)
    ensures var r := Rolled(s, now);
            r.previousCount + r.currentCount < s.limit + r.previousCount * Fraction(r, now)
  {
    RollKeepsTracking(s, log, last, now);
    var r := Rolled(s, now);
    WeightIsRest(r, now);
    var f := Fraction(r, now);
    assert r.previousCount * (1.0 - f) == r.previousCount - r.previousCount * f;
  }

  lemma CountAtAdmission(s: WindowState, log: seq<int>, last: int, now: int)
    requires Tracks(s, log, last) && last <= now && Admits(s, now)
    ensures var r := Rolled(s, now);
            && r.previousCount == CountIn(log + [now], r.windowStart - r.window, r.windowStart) as real
            && r.currentCount + 1.0 == CountIn(log + [now], r.windowStart, now + 1) as real
  {
    var r, log' := Rolled(s, now), log + [now];
    NextKeepsTracking(s, log, last, now);
    RollKeepsTracking(s, log, last, now);
    CountInSplits(log', r.windowStart, now + 1, r.windowStart + r.window);
    NoneAfterLast(log', now + 1, r.windowStart + r.window);
  }

  /**
   With a request admitted at fraction f of its window, fewer than limit + 1 + previousCount * f
   admissions lie between the start of the window before and now.
   */
  ghost predicate NoDoubleBurst(r: WindowState, log: seq<int>, now: int)
    requires r.window >= 1
  {
    var start, f := r.windowStart, Fraction(r, now);
    && 0.0 <= f < 1.0
    && r.previousCount == CountIn(log, start - r.window, start) as real
    && CountIn(log, start - r.window, now + 1) as real < r.limit + 1.0 + r.previousCount * f
  }

  lemma AdmissionBlocksDoubleBurst(s: WindowState, log: seq<int>, last: int, now: int)
    requires Tracks(s, log, last) && last <= now && Admits(s, now)
    ensures NoDoubleBurst(Rolled(s, now), log + [now], now)
  {
    RollKeepsTracking(s, log, last, now);
    var r := Rolled(s, now);
    AdmittedAtFraction(s, log, last, now);
    CountAtAdmission(s, log, last, now);
    WeightIsRest(r, now);
    CountInSplits(log + [now], r.windowStart - r.window, r.windowStart, now + 1);
  }

  /** What blocks the double burst, at every admission of every run. */
  lemma EveryAdmissionBlocksDoubleBurst(s: WindowState, times: seq<int>, k: nat)
    requires FreshRun(s, times) && k < |times| && Decisions(s, times)[k]
    ensures var r := Rolled(StateAt(s, times, k), times[k]);
            && r.limit == s.limit && r.window == s.window
            && NoDoubleBurst(r, LogAt(s, times, k + 1), times[k])
  {
    StateAtKeepsParameters(s, times, k);
    CountersTrackLog(s, times, k);
    ClockAdvances(s, times, k + 1);
    AdmissionBlocksDoubleBurst(StateAt(s, times, k), LogAt(s, times, k), LastAt(s, times, k), times[k]);
    assert LogAt(s, times, k + 1) == LogAt(s, times, k) + [times[k]];
  }

  /** What m windows admit at most. */
  function Budget(limit: real, m: nat): nat {
    if m == 0 then 0 else Budget(limit, m - 1) + PerWindow(limit)
  }

  lemma {:induction false} BudgetIsProduct(limit: real, m: nat)
    ensures Budget(limit, m) == PerWindow(limit) * m
  {
    if m > 0 {
      BudgetIsProduct(limit, m - 1);
    }
  }

  lemma {:induction false} BudgetAsReal(limit: real, n: nat, m: nat)
    requires limit == n as real
    ensures Budget(limit, m) as real == limit * m as real
  {
    CeilOfWhole(limit, n);
    if m > 0 {
      BudgetAsReal(limit, n, m - 1);
      assert limit * (m as real - 1.0) + limit == limit * m as real;
    }
  }

  lemma {:induction false} BudgetGrows(limit: real, m: nat, m': nat)
    requires m <= m'
    ensures Budget(limit, m) <= Budget(limit, m')
  {
    if m < m' {
      BudgetGrows(limit, m, m' - 1);
    }
  }

  lemma {:induction false} WindowsForMonotone(d: int, d': int, w: int)
    requires w >= 1 && d <= d'
    ensures WindowsFor(d, w) <= WindowsFor(d', w)
    decreases if d' <= 0 then 0 else d'
  {
    if d' > 0 {
      WindowsForMonotone(d - w, d' - w, w);
    }
  }

  lemma WindowsForOneMore(d: int, d': int, w: int)
    requires w >= 1 && d' >= d + w && d' > 0
    ensures WindowsFor(d', w) >= WindowsFor(d, w) + 1
  {
    WindowsForMonotone(d, d' - w, w);
  }

  /** The number of windows is the ceiling of the quotient. */
  lemma {:induction false} WindowsForIsCeil(d: int, w: int)
    requires w >= 1 && d >= 0
    ensures d as real <= WindowsFor(d, w) as real * w as real < (d + w) as real
    decreases d
  {
    if d > w {
      WindowsForIsCeil(d - w, w);
      var m, wide := WindowsFor(d - w, w) as real, w as real;
      assert (m + 1.0) * wide == m * wide + wide;
    }
  }

  /** Everything admitted between `a` and the start of the current window fits in whole windows. */
  ghost predicate EarlierBounded(s: WindowState, log: seq<int>, a: int)
    requires s.window >= 1
  {
    CountIn(log, a, s.windowStart) <= Budget(s.limit, WindowsFor(s.windowStart - a, s.window))
  }

  lemma RollAddsOneWindow(s: WindowState, log: seq<int>, last: int, now: int, a: int)
    requires Tracks(s, log, last) && last <= now && Capped(s)
    ensures var start, start' := s.windowStart, Rolled(s, now).windowStart;
            if start' != start && a < start + s.window then
              start' >= start + s.window && CountIn(log, a, start') <= CountIn(log, a, start) + PerWindow(s.limit)
            else
              start' >= start && CountIn(log, a, start') <= CountIn(log, a, start)
  {
    var w, start, start' := s.window, s.windowStart, Rolled(s, now).windowStart;
    if start' != start {
      if a < start + w {
        CountBetweenStarts(s, log, last, if a <= start then start else a, start');
        if a <= start {
          CountInSplits(log, a, start, start');
        }
      } else {
        NoneAfterLast(log, a, start');
      }
    }
  }

  lemma RollKeepsEarlierBound(s: WindowState, log: seq<int>, last: int, now: int, a: int)
    requires Tracks(s, log, last) && last <= now && Capped(s) && EarlierBounded(s, log, a)
    ensures EarlierBounded(Rolled(s, now), log, a)
  {
    var w, start, start' := s.window, s.windowStart, Rolled(s, now).windowStart;
    RollAddsOneWindow(s, log, last, now, a);
    if start' != start && a < start + w {
      WindowsForOneMore(start - a, start' - a, w);
      BudgetGrows(s.limit, WindowsFor(start - a, w) + 1, WindowsFor(start' - a, w));
    } else {
      WindowsForMonotone(start - a, start' - a, w);
      BudgetGrows(s.limit, WindowsFor(start - a, w), WindowsFor(start' - a, w));
    }
  }

  lemma CountBetweenStarts(s: WindowState, log: seq<int>, last: int, from: int, start': int)
    requires Tracks(s, log, last) && Capped(s)
    requires s.windowStart <= from && s.windowStart + s.window <= start'
    ensures CountIn(log, from, start') <= PerWindow(s.limit)
  {
    CountInMonotone(log, from, start', s.windowStart, start');
    CountInSplits(log, s.windowStart, s.windowStart + s.window, start');
    NoneAfterLast(log, s.windowStart + s.window, start');
  }

  lemma NextKeepsEarlierBound(s: WindowState, log: seq<int>, last: int, now: int, a: int)
    requires Tracks(s, log, last) && last <= now && Capped(s) && EarlierBounded(s, log, a)
    ensures EarlierBounded(Next(s, now), Logged(s, log, now), a)
  {
    RollKeepsEarlierBound(s, log, last, now, a);
    RollKeepsTracking(s, log, last, now);
    CountInAppend(log, now, a, Rolled(s, now).windowStart);
  }

  lemma {:induction false} EarlierWindowsBounded(s: WindowState, times: seq<int>, k: nat, a: int)
    requires FreshRun(s, times) && k <= |times|
    ensures StateAt(s, times, k).window >= 1
    ensures EarlierBounded(StateAt(s, times, k), LogAt(s, times, k), a)
  {
    StateAtKeepsParameters(s, times, k);
    if k > 0 {
      EarlierWindowsBounded(s, times, k - 1, a);
      CountersTrackLog(s, times, k - 1);
      EachWindowCapped(s, times, k - 1);
      ClockAdvances(s, times, k);
      NextKeepsEarlierBound(
        StateAt(s, times, k - 1), LogAt(s, times, k - 1), LastAt(s, times, k - 1), times[k - 1], a);
    }
  }

  /** What is admitted from the start of the current window on. */
  lemma AdmittedInCurrent(s: WindowState, log: seq<int>, last: int, from: int, to: int)
    requires Tracks(s, log, last) && Capped(s) && s.windowStart <= from
    ensures CountIn(log, from, to) <= PerWindow(s.limit)
  {
    var end := s.windowStart + s.window;
    var to' := if to <= end then end else to;
    CountInMonotone(log, from, to, s.windowStart, to');
    CountInSplits(log, s.windowStart, end, to');
    NoneAfterLast(log, end, to');
  }

  /** Everything admitted since `a` up to the current call. */
  lemma AdmittedSince(s: WindowState, times: seq<int>, k: nat, a: int, b: int)
    requires FreshRun(s, times) && k <= |times| && a <= b && LastAt(s, times, k) <= b
    ensures CountIn(LogAt(s, times, k), a, b + 1) <= Budget(s.limit, WindowsFor(b - a, s.window) + 1)
  {
    var now, log, last := StateAt(s, times, k), LogAt(s, times, k), LastAt(s, times, k);
    var w, start := s.window, now.windowStart;
    StateAtKeepsParameters(s, times, k);
    CountersTrackLog(s, times, k);
    EachWindowCapped(s, times, k);
    if a <= start {
      AdmittedInCurrent(now, log, last, start, b + 1);
      CountInSplits(log, a, start, b + 1);
      EarlierWindowsBounded(s, times, k, a);
      WindowsForMonotone(start - a, b - a, w);
      BudgetGrows(s.limit, WindowsFor(start - a, w), WindowsFor(b - a, w));
    } else {
      AdmittedInCurrent(now, log, last, a, b + 1);
      BudgetGrows(s.limit, 0, WindowsFor(b - a, w));
    }
  }

  lemma {:induction false} LongRunBudget(s: WindowState, times: seq<int>, k: nat, a: int, b: int)
    requires FreshRun(s, times) && k <= |times| && a <= b
    ensures CountIn(LogAt(s, times, k), a, b + 1) <= Budget(s.limit, WindowsFor(b - a, s.window) + 1)
  {
    if LastAt(s, times, k) <= b {
      AdmittedSince(s, times, k, a, b);
    } else if k > 0 {
      LongRunBudget(s, times, k - 1, a, b);
      CountInAppend(LogAt(s, times, k - 1), times[k - 1], a, b + 1);
    }
  }

  /**
   The long-run bound: in every run, idle gaps included, a closed interval of length T admits at
   most ceil(limit) * (ceil(T / window) + 1) requests.
   */
  lemma LongRunBound(s: WindowState, times: seq<int>, k: nat, a: int, b: int)
    requires FreshRun(s, times) && k <= |times| && a <= b
    ensures CountIn(LogAt(s, times, k), a, b + 1) <= PerWindow(s.limit) * (WindowsFor(b - a, s.window) + 1)
  {
    LongRunBudget(s, times, k, a, b);
    BudgetIsProduct(s.limit, WindowsFor(b - a, s.window) + 1);
  }

  /** The number of calls one instant admits, given the estimate at that instant. */
  function Room(limit: real, estimate: real): nat {
    PerWindow(limit - estimate)
  }

  lemma RoomIsExact(limit: real, estimate: real, n: nat)
    ensures estimate + n as real < limit <==> n < Room(limit, estimate)
  {
    CeilBounds(limit - estimate);
  }

  lemma SecondCallAtOnce(s: WindowState, now: int)
    requires s.window >= 1 && now >= s.windowStart
    ensures Rolled(Next(s, now), now) == Next(s, now)
    ensures Estimate(Next(s, now), now) == Estimate(s, now) + if Admits(s, now) then 1.0 else 0.0
  {
  }

  /** What one instant does to a window: admit while there is room. */
  ghost predicate AfterAtOnce(s: WindowState, now: int, k: nat, later: WindowState, admitted: nat)
    requires s.window >= 1 && now >= s.windowStart
  {
    && later.window == s.window && later.limit == s.limit && later.windowStart <= now
    && admitted == Fewer(k, Room(s.limit, Estimate(s, now)))
    && Rolled(later, now) == Rolled(s, now).(currentCount := Rolled(s, now).currentCount + admitted as real)
    && Estimate(later, now) == Estimate(s, now) + admitted as real
  }

  lemma OneMoreAtOnce(s: WindowState, now: int, k: nat, later: WindowState, admitted: nat)
    requires s.window >= 1 && now >= s.windowStart && AfterAtOnce(s, now, k, later, admitted)
    ensures AfterAtOnce(s, now, k + 1, Next(later, now), admitted + if Admits(later, now) then 1 else 0)
  {
    RoomIsExact(s.limit, Estimate(s, now), admitted);
    SecondCallAtOnce(later, now);
  }

  lemma {:induction false} AdmittedAtOnceAt(s: WindowState, now: int, n: nat, k: nat)
    requires s.window >= 1 && now >= s.windowStart && k <= n
    ensures AfterAtOnce(s, now, k, StateAt(s, AtOnce(now, n), k), Count(Decisions(s, AtOnce(now, n)), 0, k))
  {
    hide Next, Admits, Estimate, Rolled, Room;
    if k > 0 {
      AdmittedAtOnceAt(s, now, n, k - 1);
      var later := StateAt(s, AtOnce(now, n), k - 1);
      var before := Count(Decisions(s, AtOnce(now, n)), 0, k - 1);
      OneMoreAtOnce(s, now, k - 1, later, before);
      assert AtOnce(now, n)[k - 1] == now;
      assert Count(Decisions(s, AtOnce(now, n)), 0, k) == before + if Admits(later, now) then 1 else 0;
    }
  }

  /** n calls at one instant admit exactly as many as there is room for. */
  lemma AdmittedAtOnce(s: WindowState, now: int, n: nat)
    requires s.window >= 1 && now >= s.windowStart
    ensures Admitted(s, AtOnce(now, n)) == Fewer(n, Room(s.limit, Estimate(s, now)))
  {
    AdmittedAtOnceAt(s, now, n, n);
  }

  /** A new window admits a burst of exactly ceil(limit). */
  lemma FreshBurst(limit: real, window: int, now: int, n: nat)
    requires window >= 1
    ensures Admitted(Fresh(limit, window, now), AtOnce(now, n)) == Fewer(n, PerWindow(limit))
  {
    assert Estimate(Fresh(limit, window, now), now) == 0.0;
    AdmittedAtOnce(Fresh(limit, window, now), now, n);
  }

  /**
   Remaining is nearly honest: at the same instant at least that many further calls are admitted,
   and at most one more; it is exact when what is left of the limit is a whole number.
   */
  lemma RemainingIsNearlyHonest(s: WindowState, now: int, n: nat)
    requires s.window >= 1 && now >= s.windowStart
    ensures var after, remaining := Next(s, now), Report(s, now).remaining;
            var left := s.limit - Estimate(after, now);
            && Fewer(n, remaining) <= Admitted(after, AtOnce(now, n)) <= Fewer(n, remaining + 1)
            && (left == left.Floor as real ==> Admitted(after, AtOnce(now, n)) == Fewer(n, remaining))
  {
    SecondCallAtOnce(s, now);
    AdmittedAtOnce(Next(s, now), now, n);
    CeilBounds(s.limit - Estimate(Next(s, now), now));
  }
}
