/** The sliding estimate between admissions, and what the reported waits are worth. */
module WindowEstimates {
  import opened Admissions
  import opened Configs
  import opened Durations
  import opened SlidingWindows
  import Runs
  import opened WindowRuns

  /** A window no clock reading precedes. */
  ghost predicate Started(s: WindowState, now: int) {
    s.window >= 1 && s.windowStart <= now
  }

  /** Rolling early does not change any later estimate. */
  lemma RollingEarlyIsInvisible(s: WindowState, now: int, later: int)
    requires Started(s, now) && now <= later
    ensures Started(Rolled(s, now), later)
    ensures Estimate(Rolled(s, now), later) == Estimate(s, later)
  {
    var elapsed := now - s.windowStart;
    if elapsed < s.window {
      assert Rolled(s, now) == s;
    } else {
      var r := Rolled(s, now);
      if elapsed >= 2 * s.window {
        assert r.currentCount == 0.0 && r.previousCount == 0.0;
        assert Rolled(r, later).currentCount == 0.0 && Rolled(r, later).previousCount == 0.0;
        assert Rolled(s, later).currentCount == 0.0 && Rolled(s, later).previousCount == 0.0;
      } else if later - s.windowStart >= 2 * s.window {
        assert Rolled(r, later).currentCount == 0.0 && Rolled(r, later).previousCount == 0.0;
        assert Rolled(s, later).currentCount == 0.0 && Rolled(s, later).previousCount == 0.0;
      } else {
        assert Rolled(r, later) == r == Rolled(s, later);
      }
    }
  }

  /** A run in which every call is denied. */
  ghost predicate AllDenied(s: WindowState, times: seq<int>) {
    forall k :: 0 <= k < |times| ==> !Decisions(s, times)[k]
  }

  /** However many denied calls come in between, every later estimate is the same. */
  lemma {:induction false} DenialsAreInvisible(s: WindowState, times: seq<int>, k: nat, later: int)
    requires k <= |times| && Nondecreasing(times) && AllDenied(s, times)
    requires s.window >= 1 && s.windowStart <= (if times == [] then later else times[0])
    requires if k == 0 then s.windowStart <= later else times[k - 1] <= later
    ensures Started(StateAt(s, times, k), later) && StateAt(s, times, k).limit == s.limit
    ensures Estimate(StateAt(s, times, k), later) == Estimate(s, later)
  {
    if k > 0 {
      var before, now := StateAt(s, times, k - 1), times[k - 1];
      DenialsAreInvisible(s, times, k - 1, now);
      DenialsAreInvisible(s, times, k - 1, later);
      assert !Decisions(s, times)[k - 1];
      assert StateAt(s, times, k) == Rolled(before, now);
      RollingEarlyIsInvisible(before, now, later);
    }
  }

  /** x requests out of a window of which the clock leaves `left` nanoseconds. */
  function Faded(x: real, left: int, w: int): real
    requires w >= 1
  {
    x * (left as real / w as real)
  }

  lemma FadedDifference(x: real, m: real, left: int, left': int, w: int)
    requires w >= 1 && left' <= left && 0.0 <= x <= m
    ensures 0.0 <= Faded(x, left, w) - Faded(x, left', w) <= Faded(m, left - left', w)
  {
    var a, b := left as real / w as real, left' as real / w as real;
    var d := (left - left') as real / w as real;
    assert d >= 0.0;
    assert a - b == d;
    assert x * a - x * b == x * d;
    FadedGrows(x, m, d);
  }

  lemma FadedGrows(x: real, m: real, d: real)
    requires 0.0 <= x <= m && d >= 0.0
    ensures 0.0 <= x * d <= m * d
  {
  }

  lemma FadedAddsUp(m: real, d: int, e: int, w: int)
    requires w >= 1
    ensures Faded(m, d + e, w) == Faded(m, d, w) + Faded(m, e, w)
  {
    var a, b := d as real / w as real, e as real / w as real;
    assert (d + e) as real / w as real == a + b;
    assert m * (a + b) == m * a + m * b;
  }

  lemma FadedWhole(x: real, w: int)
    requires w >= 1
    ensures Faded(x, w, w) == x && Faded(x, 0, w) == 0.0
  {
  }

  /** The estimate over idle time, in three pieces that agree where they meet. */
  lemma EstimatePieces(s: WindowState, now: int)
    requires Started(s, now)
    ensures var e, w := now - s.windowStart, s.window;
            && (e <= w ==> Estimate(s, now) == Faded(s.previousCount, w - e, w) + s.currentCount)
            && (w <= e <= 2 * w ==> Estimate(s, now) == Faded(s.currentCount, 2 * w - e, w))
            && (2 * w <= e ==> Estimate(s, now) == 0.0)
  {
    FadedWhole(s.previousCount, s.window);
    FadedWhole(s.currentCount, s.window);
  }

  ghost predicate NonNegative(s: WindowState) {
    s.currentCount >= 0.0 && s.previousCount >= 0.0
  }

  /** The larger of the two counters. */
  function Larger(s: WindowState): real {
    Max(s.currentCount, s.previousCount)
  }

  /** The estimate falls, and no faster than the larger counter over a window. */
  ghost predicate FallsGently(s: WindowState, now: int, later: int)
    requires s.window >= 1
  {
    0.0 <= Estimate(s, now) - Estimate(s, later) <= Faded(Larger(s), later - now, s.window)
  }

  lemma FallsGentlyWithinPiece(s: WindowState, now: int, later: int)
    requires Started(s, now) && now <= later && NonNegative(s)
    requires var e, e', w := now - s.windowStart, later - s.windowStart, s.window;
             e' <= w || (w <= e && e' <= 2 * w) || 2 * w <= e
    ensures FallsGently(s, now, later)
  {
    EstimatePieces(s, now);
    EstimatePieces(s, later);
    var e, e', w := now - s.windowStart, later - s.windowStart, s.window;
    if e' <= w {
      FadedDifference(s.previousCount, Larger(s), w - e, w - e', w);
    } else if w <= e && e' <= 2 * w {
      FadedDifference(s.currentCount, Larger(s), 2 * w - e, 2 * w - e', w);
    } else {
      FadedDifference(Larger(s), Larger(s), later - now, 0, w);
      FadedWhole(Larger(s), w);
    }
  }

  lemma FallsGentlyInTwo(s: WindowState, now: int, middle: int, later: int)
    requires s.window >= 1 && FallsGently(s, now, middle) && FallsGently(s, middle, later)
    ensures FallsGently(s, now, later)
  {
    FadedAddsUp(Larger(s), middle - now, later - middle, s.window);
  }

  /**
   With no admission the estimate never rises and never jumps, across any number of rolls: over d
   nanoseconds it falls by at most max(currentCount, previousCount) * d / window.
   */
  lemma EstimateFallsGently(s: WindowState, now: int, later: int)
    requires Started(s, now) && now <= later && NonNegative(s)
    ensures FallsGently(s, now, later)
    decreases later - now
  {
    var end, gone := s.windowStart + s.window, s.windowStart + 2 * s.window;
    if now < end < later {
      FallsGentlyWithinPiece(s, now, end);
      EstimateFallsGently(s, end, later);
      FallsGentlyInTwo(s, now, end, later);
    } else if now < gone < later {
      FallsGentlyWithinPiece(s, now, gone);
      FallsGentlyWithinPiece(s, gone, later);
      FallsGentlyInTwo(s, now, gone, later);
    } else {
      FallsGentlyWithinPiece(s, now, later);
    }
  }

  /** A call sees the window it leaves behind as it is, with itself counted if it was admitted. */
  lemma SeenAfterCall(s: WindowState, now: int)
    requires s.window >= 1
    ensures Rolled(Next(s, now), now) == Next(s, now)
    ensures Estimate(Next(s, now), now) == Estimate(s, now) + if Admits(s, now) then 1.0 else 0.0
  {
  }

  /**
   What every call reports, whatever the counters. The reset time is the end of the window the call
   lies in, and so is the retry time of a denied call; Remaining is the largest whole number not above
   what is left of the limit once the call is counted, and 0 when that is negative.
   */
  lemma ReportedFields(s: WindowState, now: int)
    requires s.window >= 1
    ensures var d, after := Report(s, now), Next(s, now);
            var left := s.limit - Estimate(after, now);
            && d.allowed == Admits(s, now) && d.limit == s.limit
            && now + d.resetAfter == after.windowStart + after.window
            && d.retryAfter == (if d.allowed then 0 else d.resetAfter)
            && (left >= 0.0 ==> d.remaining as real <= left < d.remaining as real + 1.0)
            && (left < 0.0 ==> d.remaining == 0)
            && (s.windowStart <= now ==> 0 < d.resetAfter <= s.window)
  {
    hide Estimate, Admits;
    SeenAfterCall(s, now);
  }

  /** The reading of the clock a denied caller is told to come back at. */
  function RetryTime(s: WindowState, now: int): int {
    now + Report(s, now).retryAfter
  }

  /** The calls other clients make between a denied call and its retry are denied as well. */
  ghost predicate DeniedMeanwhile(after: WindowState, now: int, times: seq<int>, retry: int) {
    && Nondecreasing(times) && AllDenied(after, times)
    && (times != [] ==> now <= times[0] && times[|times| - 1] <= retry)
  }

  lemma AdmittedOnEstimate(s: WindowState, now: int, times: seq<int>, retry: int)
    requires Started(s, now) && now <= retry && DeniedMeanwhile(s, now, times, retry)
    ensures Admits(StateAfter(s, times), retry) <==> Estimate(s, retry) < s.limit
  {
    DenialsAreInvisible(s, times, |times|, retry);
  }

  /**
   The exact meaning of RetryAfter: a denied caller that comes back exactly then, with no admission
   in between, is admitted if and only if the current counter was below the limit.
   */
  lemma RetryingAtRetryAfter(s: WindowState, now: int, times: seq<int>)
    requires Started(s, now) && !Admits(s, now)
    requires DeniedMeanwhile(Next(s, now), now, times, RetryTime(s, now))
    ensures var after := Next(s, now);
            Admits(StateAfter(after, times), RetryTime(s, now)) <==> after.currentCount < s.limit
  {
    var after, retry := Next(s, now), RetryTime(s, now);
    assert retry == after.windowStart + after.window;
    AdmittedOnEstimate(after, now, times, retry);
    EstimatePieces(after, retry);
    FadedWhole(after.previousCount, after.window);
  }

  /**
   Later retries: from one nanosecond after RetryAfter on, every retry is admitted, provided the
   current counter does not exceed the limit.
   */
  lemma RetryingAfterRetryAfter(s: WindowState, now: int, times: seq<int>, later: int)
    requires Started(s, now) && !Admits(s, now) && later > RetryTime(s, now)
    requires var after := Next(s, now);
             0.0 <= after.currentCount <= s.limit && s.limit > 0.0 && DeniedMeanwhile(after, now, times, later)
    ensures Admits(StateAfter(Next(s, now), times), later)
  {
    var after, retry := Next(s, now), RetryTime(s, now);
    assert retry == after.windowStart + after.window;
    AdmittedOnEstimate(after, now, times, later);
    EstimatePieces(after, later);
    if later <= after.windowStart + 2 * after.window {
      FadedBelow(after.currentCount, s.limit, after.windowStart + 2 * after.window - later, after.window);
    }
  }

  lemma FadedBelow(x: real, limit: real, left: int, w: int)
    requires 0.0 <= x <= limit && limit > 0.0 && 0 <= left < w
    ensures Faded(x, left, w) < limit
  {
    var share := left as real / w as real;
    assert 0.0 <= share < 1.0;
    FadedGrows(x, limit, share);
    assert limit * share < limit;
  }

  /** For a whole-number limit every reachable window keeps its counter within the limit. */
  lemma WholeLimitKeepsCounter(s: WindowState, times: seq<int>, k: nat)
    requires FreshRun(s, times) && k <= |times| && s.limit == s.limit.Floor as real && s.limit >= 0.0
    ensures 0.0 <= StateAt(s, times, k).currentCount <= s.limit
  {
    EachWindowCapped(s, times, k);
    assert StateAt(s, times, k).currentCount >= 0.0 by {
      CountersTrackLog(s, times, k);
    }
    StateAtKeepsParameters(s, times, k);
    CeilOfWhole(s.limit, s.limit.Floor);
  }

  /**
   For a whole-number limit, then, a retry at least one nanosecond after RetryAfter is always
   admitted, whatever the run before the denial.
   */
  lemma WholeLimitAdmitsLaterRetry(
      s: WindowState, times: seq<int>, now: int, meanwhile: seq<int>, later: int)
    requires FreshRun(s, times + [now]) && s.limit == s.limit.Floor as real && s.limit > 0.0
    requires var before := StateAfter(s, times);
             && !Admits(before, now) && later > RetryTime(before, now)
             && DeniedMeanwhile(Next(before, now), now, meanwhile, later)
    ensures Admits(StateAfter(Next(StateAfter(s, times), now), meanwhile), later)
  {
    hide Admits, Report;
    var before, all := StateAfter(s, times), times + [now];
    assert all[..|times|] == times[..|times|];
    WholeLimitKeepsCounter(s, all, |all|);
    Runs.DependsOnPrefix(SlidingWindows.Next, SlidingWindows.Admits, s, all, times, |times|);
    CountersTrackLog(s, all, |times|);
    ClockAdvances(s, all, |all|);
    StateAtKeepsParameters(s, times, |times|);
    RetryingAfterRetryAfter(before, now, meanwhile, later);
  }

  /** n calls at `now` are all admitted. */
  ghost predicate AdmitsBurst(s: WindowState, now: int, n: nat) {
    Admitted(s, AtOnce(now, n)) == n
  }

  /** A new window admits a first burst of all it can hold, and this is what it leaves behind. */
  lemma FirstBurst(limit: real, w: int, start: int, now: int)
    requires w >= 1 && start <= now < start + w
    ensures AdmitsBurst(Fresh(limit, w, start), now, PerWindow(limit))
    ensures StateAfter(Fresh(limit, w, start), AtOnce(now, PerWindow(limit)))
         == WindowState(limit, w, start, PerWindow(limit) as real, 0.0)
  {
    var empty, n := Fresh(limit, w, start), PerWindow(limit);
    EstimatePieces(empty, now);
    AdmittedAtOnceAt(empty, now, n, n);
    StateAtKeepsParameters(empty, AtOnce(now, n), n);
    BurstStaysInWindow(empty, AtOnce(now, n), n);
  }

  lemma {:induction false} BurstStaysInWindow(s: WindowState, times: seq<int>, k: nat)
    requires k <= |times| && s.window >= 1
    requires forall j :: 0 <= j < |times| ==> s.windowStart <= times[j] < s.windowStart + s.window
    ensures StateAt(s, times, k).windowStart == s.windowStart
    ensures StateAt(s, times, k).window == s.window
  {
    if k > 0 {
      BurstStaysInWindow(s, times, k - 1);
    }
  }

  /** A window whose current counter has reached the limit denies until its end, and at its end. */
  lemma SpentWindow(s: WindowState, now: int)
    requires Started(s, now) && now < s.windowStart + s.window && s.currentCount >= s.limit && NonNegative(s)
    ensures !Admits(s, now) && RetryTime(s, now) == s.windowStart + s.window
    ensures !Admits(Next(s, now), s.windowStart + s.window)
  {
    var w, e := s.window, now - s.windowStart;
    FadedDifference(s.previousCount, s.previousCount, w - e, 0, w);
    FadedWhole(s.previousCount, w);
    EstimatePieces(s, now);
    EstimatePieces(s, s.windowStart + w);
  }

  /**
   The announced wait is not always safe. Whatever the limit and the window, a client that uses up
   the limit in one burst and asks again within the window is told to come back at its end, and is
   denied there again: the roll counts the whole burst as the previous window, at full weight.
   */
  lemma RetryAfterCanBeTooShort(limit: real, w: int, start: int, now: int)
    requires limit > 0.0 && w >= 1 && start <= now < start + w
    ensures var s := StateAfter(Fresh(limit, w, start), AtOnce(start, PerWindow(limit)));
            && !Admits(s, now)
            && RetryTime(s, now) == start + w
            && !Admits(Next(s, now), start + w)
  {
    hide StateAfter, Admits, RetryTime;
    FirstBurst(limit, w, start, start);
    CeilBounds(limit);
    SpentWindow(WindowState(limit, w, start, PerWindow(limit) as real, 0.0), now);
  }

  /**
   ResetAfter is the end of the current window, and not when everything is available again: that it
   is exactly when nothing has been admitted in the current window.
   */
  lemma ResetAfterMeansEmpty(s: WindowState, now: int)
    requires Started(s, now) && NonNegative(s)
    ensures var after, reset := Next(s, now), now + Report(s, now).resetAfter;
            && reset == after.windowStart + after.window
            && Estimate(after, reset) == after.currentCount
            && (Estimate(after, reset) == 0.0 <==> after.currentCount == 0.0)
            && (Admits(s, now) ==> Estimate(after, reset) >= 1.0)
            && Estimate(after, reset + s.window) == 0.0
  {
    var after := Next(s, now);
    var reset := after.windowStart + after.window;
    EstimatePieces(after, reset);
    EstimatePieces(after, reset + s.window);
    FadedWhole(after.previousCount, after.window);
  }
}
