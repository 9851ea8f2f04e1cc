/** The sliding-window counter: two counters and a rolling anchor stand in for a request log. */
module SlidingWindows {
  import opened Configs
  import opened Durations
  import opened Logs

  /** The plain data of a sliding window, as captured by State and put back by FromState. */
  datatype WindowState = WindowState(
    limit: real, window: int, windowStart: int, currentCount: real, previousCount: real)

  /** A window as newly created at `now`: empty and anchored there. */
  function Fresh(limit: real, window: int, now: int): WindowState {
    WindowState(limit, window, now, 0.0, 0.0)
  }

  /** The roll a call at `now` performs first. */
  function Rolled(s: WindowState, now: int): WindowState {
    var elapsed := now - s.windowStart;
    if elapsed >= 2 * s.window then
      s.(currentCount := 0.0, previousCount := 0.0, windowStart := now)
    else if elapsed >= s.window then
      s.(previousCount := s.currentCount, currentCount := 0.0, windowStart := s.windowStart + s.window)
    else
      s
  }

  /** The share of the previous window that still counts at `now`. */
  function Weight(s: WindowState, now: int): real
    requires s.window != 0
  {
    (s.window - (now - s.windowStart)) as real / s.window as real
  }

  /** The number of requests a call at `now` takes to lie within the last window. */
  function Estimate(s: WindowState, now: int): real
    requires s.window != 0
  {
    var r := Rolled(s, now);
    r.previousCount * Weight(r, now) + r.currentCount
  }

  /**
   Whether a call at `now` is admitted. With a window of zero nanoseconds the code divides zero by
   zero, and its comparison with the limit is false.
   */
  predicate Admits(s: WindowState, now: int) {
    s.window != 0 && Estimate(s, now) < s.limit
  }

  /** The window a call at `now` leaves behind. */
  function Next(s: WindowState, now: int): WindowState {
    var r := Rolled(s, now);
    if Admits(s, now) then r.(currentCount := r.currentCount + 1.0) else r
  }

  /** The decision reported by a call at `now`. */
  function Report(s: WindowState, now: int): Decision {
    var allowed := Admits(s, now);
    var used := if s.window == 0 then s.limit else Estimate(s, now) + if allowed then 1.0 else 0.0;
    var left := (s.limit - used).Floor;
    var reset := s.window - (now - Rolled(s, now).windowStart);
    Decision(allowed, s.limit, if left >= 0 then left else 0, if allowed then 0 else reset, reset)
  }

  /** The two counters of s are what a full log of admissions would say at clock reading `last`. */
  ghost predicate Tracks(s: WindowState, log: seq<int>, last: int) {
    && s.window >= 1
    && s.windowStart <= last < s.windowStart + s.window
    && (forall k :: 0 <= k < |log| ==> log[k] <= last)
    && s.currentCount == CountIn(log, s.windowStart, s.windowStart + s.window) as real
    && s.previousCount == CountIn(log, s.windowStart - s.window, s.windowStart) as real
  }

  /** The log after a call at `now`. */
  function Logged(s: WindowState, log: seq<int>, now: int): seq<int> {
    if Admits(s, now) then log + [now] else log
  }

  /** Through each kind of roll the counters keep agreeing with the log. */
  lemma RollKeepsTracking(s: WindowState, log: seq<int>, last: int, now: int)
    requires Tracks(s, log, last) && last <= now
    ensures Tracks(Rolled(s, now), log, now)
  {
    var w, start := s.window, s.windowStart;
    if now - start >= 2 * w {
      NoneAfterLast(log, now, now + w);
      NoneAfterLast(log, now - w, now);
    } else if now - start >= w {
      NoneAfterLast(log, start + w, start + 2 * w);
    }
  }

  /** The two counters refine the full log: every call keeps them equal to what the log says. */
  lemma NextKeepsTracking(s: WindowState, log: seq<int>, last: int, now: int)
    requires Tracks(s, log, last) && last <= now
    ensures Tracks(Next(s, now), Logged(s, log, now), now)
  {
    hide Admits, Rolled, CountIn;
    RollKeepsTracking(s, log, last, now);
    var r := Rolled(s, now);
    CountInAppend(log, now, r.windowStart, r.windowStart + r.window);
    CountInAppend(log, now, r.windowStart - r.window, r.windowStart);
  }

  class SlidingWindow {
    var limit: real
    var window: int
    var windowStart: int
    var currentCount: real
    var previousCount: real

    /** Every admission since creation, and the reading of the clock at the last call. */
    ghost var log: seq<int>
    ghost var last: int

    function State(): WindowState
      reads this
    {
      WindowState(limit, window, windowStart, currentCount, previousCount)
    }

    constructor (limit: real, window: int, now: int)
      ensures State() == Fresh(limit, window, now)
      ensures log == [] && last == now
      ensures window >= 1 ==> Tracks(State(), log, last)
    {
      this.limit := limit;
      this.window := window;
      this.windowStart := now;
      this.currentCount := 0.0;
      this.previousCount := 0.0;
      this.log := [];
      this.last := now;
    }

    constructor FromState(s: WindowState, ghost log: seq<int>, ghost last: int)
      ensures State() == s && this.log == log && this.last == last
    {
      limit := s.limit;
      window := s.window;
      windowStart := s.windowStart;
      currentCount := s.currentCount;
      previousCount := s.previousCount;
      this.log := log;
      this.last := last;
    }

    /** One request, at clock reading `now`. */
    method Allow(now: int) returns (d: Decision)
      modifies this
      ensures State() == Next(old(State()), now)
      ensures d == Report(old(State()), now)
      ensures log == Logged(old(State()), old(log), now) && last == now
      ensures old(Tracks(State(), log, last)) && old(last) <= now ==> Tracks(State(), log, last)
    {
      hide Tracks;
      ghost var before := State();
      var elapsed := now - windowStart;
      if elapsed >= 2 * window {
        currentCount := 0.0;
        previousCount := 0.0;
        windowStart := now;
      } else if elapsed >= window {
        previousCount := currentCount;
        currentCount := 0.0;
        windowStart := windowStart + window;
      }
      assert State() == Rolled(before, now);

      var elapsedInCurrent := now - windowStart;
      var allowed := false;
      var left := 0;
      if window != 0 {
        var weight := (window - elapsedInCurrent) as real / window as real;
        var estimated := previousCount * weight + currentCount;
        assert estimated == Estimate(before, now);
        allowed := estimated < limit;
        var consumed := 0.0;
        if allowed {
          currentCount := currentCount + 1.0;
          consumed := 1.0;
        }
        left := (limit - (estimated + consumed)).Floor;
      }

      var resetAfter := window - elapsedInCurrent;
      var retryAfter := 0;
      if !allowed {
        retryAfter := resetAfter;
      }

      if Tracks(before, log, last) && last <= now {
        NextKeepsTracking(before, log, last, now);
      }
      log := Logged(before, log, now);
      last := now;
      d := Decision(allowed, limit, if left >= 0 then left else 0, retryAfter, resetAfter);
    }
  }
}
