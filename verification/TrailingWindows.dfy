/**
 How many requests a sliding window really admits within less than one window length, wherever the
 interval lies: the exact worst case, and exactly when it keeps to the limit.
 */
module TrailingWindows {
  import opened Admissions
  import opened Durations
  import opened Logs
  import opened SlidingWindows
  import opened WindowEstimates
  import opened WindowRuns
  import Runs

  /** All that one window holds, and what still fits two nanoseconds before the end of the next. */
  function WorstTrailing(limit: real, w: int): nat
    requires w >= 1
  {
    PerWindow(limit) + Room(limit, Faded(PerWindow(limit) as real, 2, w))
  }

  lemma RoomDrops(limit: real, e: real, e': real, d: nat)
    requires e' <= e + d as real
    ensures Room(limit, e) <= Room(limit, e') + d
  {
    CeilBounds(limit - e);
    CeilBounds(limit - e');
  }

  lemma ShareOfFewer(p: real, n: real, share: real)
    requires p <= n && 0.0 <= share <= 1.0
    ensures n * share <= p * share + (n - p)
  {
    assert (n - p) * (1.0 - share) >= 0.0;
  }

  /** Each request taken out of the previous window makes room for at most one in the current one. */
  lemma FullPreviousIsWorst(limit: real, p: nat, n: nat, w: int)
    requires p <= n && w >= 2
    ensures p + Room(limit, Faded(p as real, 2, w)) <= n + Room(limit, Faded(n as real, 2, w))
  {
    ShareOfFewer(p as real, n as real, 2.0 / w as real);
    RoomDrops(limit, Faded(p as real, 2, w), Faded(n as real, 2, w), n - p);
  }

  /** Up to two nanoseconds before the end of its window, both counters together stay within the worst case. */
  ghost predicate EarlyBounded(s: WindowState, last: int)
    requires s.window >= 1
  {
    last + 2 <= s.windowStart + s.window ==>
      s.previousCount + s.currentCount <= WorstTrailing(s.limit, s.window) as real
  }

  lemma WeightOfEarly(s: WindowState, now: int, p: real)
    requires s.window >= 1 && now + 2 <= s.windowStart + s.window && p >= 0.0
    ensures Faded(p, 2, s.window) <= p * Weight(s, now)
  {
    var w := s.window as real;
    var x, y := 2.0 / w, Weight(s, now);
    assert x * w == 2.0 && y * w >= 2.0;
    assert (y - x) * w >= 0.0;
    assert y >= x;
    assert p * (y - x) >= 0.0;
  }

  lemma EstimateAtAdmission(s: WindowState, now: int)
    requires s.window >= 1 && Admits(s, now)
    ensures var r := Rolled(s, now);
            r.limit == s.limit && r.window == s.window && r.previousCount * Weight(r, now) + r.currentCount < s.limit
  {
  }

  lemma CapAtAdmission(s: WindowState, log: seq<int>, last: int, now: int)
    requires Tracks(s, log, last) && last <= now && Capped(s)
    ensures Rolled(s, now).previousCount <= PerWindow(s.limit) as real
  {
    NextKeepsCap(s, log, last, now);
  }

  lemma EarlyAdmission(s: WindowState, log: seq<int>, last: int, now: int)
    requires Tracks(s, log, last) && last <= now && Capped(s) && Admits(s, now)
    requires now + 2 <= Rolled(s, now).windowStart + s.window
    ensures var r := Rolled(s, now);
            r.previousCount + r.currentCount + 1.0 <= WorstTrailing(s.limit, s.window) as real
  {
    hide Admits, Capped, Rolled, Weight, Faded, Room, PerWindow;
    RollKeepsTracking(s, log, last, now);
    EstimateAtAdmission(s, now);
    CapAtAdmission(s, log, last, now);
    var r, w := Rolled(s, now), s.window;
    var p, c := CountIn(log, r.windowStart - w, r.windowStart), CountIn(log, r.windowStart, r.windowStart + w);
    WeightOfEarly(r, now, p as real);
    RoomIsExact(s.limit, Faded(p as real, 2, w), c);
    FullPreviousIsWorst(s.limit, p, PerWindow(s.limit), w);
  }

  lemma NextKeepsEarlyBound(s: WindowState, log: seq<int>, last: int, now: int)
    requires Tracks(s, log, last) && last <= now && Capped(s) && EarlyBounded(s, last)
    ensures EarlyBounded(Next(s, now), now)
  {
    hide WorstTrailing;
    NextKeepsCap(s, log, last, now);
    var r := Rolled(s, now);
    WorstIsAtLeastOneWindow(s.limit, s.window);
    if Admits(s, now) && now + 2 <= r.windowStart + s.window {
      EarlyAdmission(s, log, last, now);
    }
  }

  lemma WorstIsAtLeastOneWindow(limit: real, w: int)
    requires w >= 1
    ensures PerWindow(limit) <= WorstTrailing(limit, w)
  {
  }

  lemma {:induction false} EarlyBoundedAlong(s: WindowState, times: seq<int>, k: nat)
    requires FreshRun(s, times) && k <= |times|
    ensures StateAt(s, times, k).window >= 1 && EarlyBounded(StateAt(s, times, k), LastAt(s, times, k))
  {
    hide EarlyBounded;
    StateAtKeepsParameters(s, times, k);
    if k == 0 {
      FreshIsEarlyBounded(s);
    } else {
      EarlyBoundedAlong(s, times, k - 1);
      CountersTrackLog(s, times, k - 1);
      EachWindowCapped(s, times, k - 1);
      ClockAdvances(s, times, k);
      NextKeepsEarlyBound(
        StateAt(s, times, k - 1), LogAt(s, times, k - 1), LastAt(s, times, k - 1), times[k - 1]);
    }
  }

  lemma FreshIsEarlyBounded(s: WindowState)
    requires s == Fresh(s.limit, s.window, s.windowStart) && s.window >= 1
    ensures EarlyBounded(s, s.windowStart)
  {
  }

  /** The admissions with readings in [a, b] among the first k calls of a run. */
  function TrailingCount(s: WindowState, times: seq<int>, k: nat, a: int, b: int): nat
    requires k <= |times|
  {
    CountIn(LogAt(s, times, k), a, b + 1)
  }

  /** An interval shorter than the window, ending no earlier than the last call. */
  lemma TrailingSince(s: WindowState, times: seq<int>, k: nat, a: int, b: int)
    requires FreshRun(s, times) && k <= |times| && a <= b < a + s.window && LastAt(s, times, k) <= b
    ensures TrailingCount(s, times, k, a, b) <= WorstTrailing(s.limit, s.window)
  {
    hide WorstTrailing;
    var now, log, last := StateAt(s, times, k), LogAt(s, times, k), LastAt(s, times, k);
    var w, start := s.window, now.windowStart;
    StateAtKeepsParameters(s, times, k);
    CountersTrackLog(s, times, k);
    EachWindowCapped(s, times, k);
    WorstIsAtLeastOneWindow(s.limit, w);
    if start <= a {
      AdmittedInCurrent(now, log, last, a, b + 1);
    } else {
      EarlyBoundedAlong(s, times, k);
      CountInMonotone(log, a, b + 1, start - w, b + 1);
      CountInSplits(log, start - w, start, b + 1);
      CountInMonotone(log, start, b + 1, start, if b + 1 <= start + w then start + w else b + 1);
    }
  }

  /** The worst case bounds every interval shorter than the window, in every run. */
  lemma {:induction false} TrailingBound(s: WindowState, times: seq<int>, k: nat, a: int, b: int)
    requires FreshRun(s, times) && k <= |times| && a <= b < a + s.window
    ensures TrailingCount(s, times, k, a, b) <= WorstTrailing(s.limit, s.window)
  {
    if LastAt(s, times, k) <= b {
      TrailingSince(s, times, k, a, b);
    } else if k > 0 {
      TrailingBound(s, times, k - 1, a, b);
      CountInAppend(LogAt(s, times, k - 1), times[k - 1], a, b + 1);
    }
  }

  /** When all readings lie in an interval, what is logged there is what is admitted. */
  lemma {:induction false} LoggedIsAdmitted(s: WindowState, times: seq<int>, k: nat, lo: int, hi: int)
    requires k <= |times| && forall j :: 0 <= j < k ==> lo <= times[j] < hi
    ensures CountIn(LogAt(s, times, k), lo, hi) == Count(Decisions(s, times), 0, k)
  {
    hide Next, Admits;
    if k > 0 {
      LoggedIsAdmitted(s, times, k - 1, lo, hi);
      CountInAppend(LogAt(s, times, k - 1), times[k - 1], lo, hi);
      assert Decisions(s, times)[k - 1] == Admits(StateAt(s, times, k - 1), times[k - 1]);
    }
  }

  /** A full burst at the end of one window, and what fits near the end of the next. */
  function WorstRun(limit: real, w: int, start: int): (times: seq<int>)
    requires w >= 1
    ensures |times| == WorstTrailing(limit, w)
    ensures forall j :: 0 <= j < |times| ==> start + w - 1 <= times[j] < start + 2 * w - 1
  {
    var n := PerWindow(limit);
    AtOnce(start + w - 1, n) + AtOnce(start + 2 * w - 2, WorstTrailing(limit, w) - n)
  }

  lemma SecondBurst(limit: real, w: int, start: int)
    requires w >= 1
    ensures var n := PerWindow(limit);
            AdmitsBurst(WindowState(limit, w, start, n as real, 0.0), start + 2 * w - 2, WorstTrailing(limit, w) - n)
  {
    hide Admitted, Estimate, Faded, Room, PerWindow;
    var n := PerWindow(limit);
    var s, now := WindowState(limit, w, start, n as real, 0.0), start + 2 * w - 2;
    AdmittedAtOnce(s, now, WorstTrailing(limit, w) - n);
    if w == 1 {
      NoRoomInOneNanosecond(limit);
    } else {
      EstimatePieces(s, now);
    }
  }

  lemma NoRoomInOneNanosecond(limit: real)
    ensures WorstTrailing(limit, 1) == PerWindow(limit)
  {
    assert Faded(PerWindow(limit) as real, 2, 1) == 2.0 * PerWindow(limit) as real;
    CeilBounds(limit);
    CeilBounds(limit - 2.0 * PerWindow(limit) as real);
  }

  lemma AdmittedInRow(s: WindowState, a: seq<int>, b: seq<int>)
    ensures Admitted(s, a + b) == Admitted(s, a) + Admitted(StateAfter(s, a), b)
  {
    Runs.Join(Next, Admits, s, a, b);
    Runs.LogIsAdmitted(Next, Admits, s, a, |a|);
    Runs.LogIsAdmitted(Next, Admits, s, a + b, |a + b|);
    Runs.LogIsAdmitted(Next, Admits, StateAfter(s, a), b, |b|);
  }

  /** The worst case happens, whenever the window is made. */
  lemma WorstIsReached(limit: real, w: int, start: int)
    requires w >= 1
    ensures var s, times := Fresh(limit, w, start), WorstRun(limit, w, start);
            && FreshRun(s, times)
            && TrailingCount(s, times, |times|, start + w - 1, start + 2 * w - 2) == WorstTrailing(limit, w)
  {
    hide WorstTrailing, Admitted;
    var s, times, n := Fresh(limit, w, start), WorstRun(limit, w, start), PerWindow(limit);
    WorstIsAtLeastOneWindow(limit, w);
    var first, second := AtOnce(start + w - 1, n), AtOnce(start + 2 * w - 2, WorstTrailing(limit, w) - n);
    FirstBurst(limit, w, start, start + w - 1);
    SecondBurst(limit, w, start);
    AdmittedInRow(s, first, second);
    AdmittedIsLogged(s, times, start + w - 1, start + 2 * w - 1);
  }

  lemma AdmittedIsLogged(s: WindowState, times: seq<int>, lo: int, hi: int)
    requires forall j :: 0 <= j < |times| ==> lo <= times[j] < hi
    ensures CountIn(LogAt(s, times, |times|), lo, hi) == Admitted(s, times)
  {
    LoggedIsAdmitted(s, times, |times|, lo, hi);
  }

  /** At most what one window may hold is admitted in every interval shorter than the window. */
  ghost predicate KeepsTrailingLimit(limit: real, w: int)
    requires w >= 1
  {
    forall s, times, k, a, b ::
      FreshRun(s, times) && s.limit == limit && s.window == w && 0 <= k <= |times| && a <= b < a + w ==>
        TrailingCount(s, times, k, a, b) <= PerWindow(limit)
  }

  lemma NoRoomLeft(limit: real, w: int)
    requires w >= 1
    ensures WorstTrailing(limit, w) <= PerWindow(limit) <==> limit * w as real <= 2.0 * PerWindow(limit) as real
  {
    var n := PerWindow(limit) as real;
    var share := 2.0 / w as real;
    RoomIsExact(limit, Faded(n, 2, w), 0);
    assert share * w as real == 2.0;
    ScaledOrder(limit, n * share, w as real);
    assert (n * share) * w as real == n * (share * w as real);
  }

  lemma ScaledOrder(x: real, y: real, w: real)
    requires w > 0.0
    ensures x <= y <==> x * w <= y * w
  {
    if x <= y {
      assert (y - x) * w >= 0.0;
    } else {
      assert (x - y) * w > 0.0;
    }
  }

  /**
   Exactly when the limit holds for trailing windows: every interval shorter than the window, in every
   run, admits at most ceil(limit) if and only if limit * window <= 2 * ceil(limit).
   */
  lemma TrailingLimitExactly(limit: real, w: int)
    requires w >= 1
    ensures KeepsTrailingLimit(limit, w) <==> limit * w as real <= 2.0 * PerWindow(limit) as real
  {
    hide WorstTrailing, PerWindow;
    NoRoomLeft(limit, w);
    if WorstTrailing(limit, w) <= PerWindow(limit) {
      forall s, times, k, a, b | FreshRun(s, times) && s.limit == limit && s.window == w
                                 && 0 <= k <= |times| && a <= b < a + w
        ensures TrailingCount(s, times, k, a, b) <= PerWindow(limit)
      {
        TrailingBound(s, times, k, a, b);
      }
    } else {
      WorstIsReached(limit, w, 0);
      var times := WorstRun(limit, w, 0);
      assert TrailingCount(Fresh(limit, w, 0), times, |times|, w - 1, 2 * w - 2) > PerWindow(limit);
    }
  }

  /** For a whole limit that leaves only windows of one and two nanoseconds. */
  lemma WholeTrailingLimitExactly(n: nat, w: int)
    requires n >= 1 && w >= 1
    ensures PerWindow(n as real) == n
    ensures KeepsTrailingLimit(n as real, w) <==> w <= 2
  {
    CeilOfWhole(n as real, n);
    TrailingLimitExactly(n as real, w);
    ScaledOrder(w as real, 2.0, n as real);
  }

  lemma RoomOfWhole(n: nat, e: real)
    requires n >= 1 && e > 0.0
    ensures Room(n as real, e) <= n
    ensures Room(n as real, e) == n <==> e < 1.0
  {
    RoomIsExact(n as real, e, n - 1);
    RoomIsExact(n as real, e, n);
  }

  lemma FadedToTwoNanoseconds(n: nat, w: int)
    requires n >= 1 && w >= 1
    ensures 0.0 < Faded(n as real, 2, w)
    ensures Faded(n as real, 2, w) < 1.0 <==> w > 2 * n
  {
    var x, share := n as real, 2.0 / w as real;
    assert share * w as real == 2.0 && share > 0.0;
    assert x * share > 0.0;
    ScaledOrder(1.0, x * share, w as real);
    assert (x * share) * w as real == x * (share * w as real);
  }

  /** Twice a whole limit is the worst case exactly when the window is longer than twice the limit. */
  lemma TwiceTheLimitExactly(n: nat, w: int)
    requires n >= 1 && w >= 1
    ensures WorstTrailing(n as real, w) <= 2 * n
    ensures WorstTrailing(n as real, w) == 2 * n <==> w > 2 * n
  {
    hide Faded, Room, PerWindow;
    CeilOfWhole(n as real, n);
    WholeTrailingLimitExactly(n, w);
    FadedToTwoNanoseconds(n, w);
    RoomOfWhole(n, Faded(n as real, 2, w));
  }
}
