/** Durations in nanoseconds, and the conversions the Go code applies to them. */
module Durations {
  /** The largest time.Duration, reported when a bucket never refills. */
  const NEVER_REFILLS: int := 0x7fff_ffff_ffff_ffff

  /** Duration.Seconds, in exact arithmetic. */
  function Seconds(d: int): real {
    d as real / 1_000_000_000.0
  }

  /** The conversion of a floating-point number to an integer: towards zero. */
  function Truncate(x: real): int {
    if x >= 0.0 then x.Floor else -(-x).Floor
  }

  function Ceil(x: real): int {
    -(-x).Floor
  }

  /** time.Duration(seconds * float64(time.Second)). */
  function FromSeconds(seconds: real): int {
    Truncate(seconds * 1_000_000_000.0)
  }

  /** The number of whole seconds a duration is rendered as, rounded down. */
  function HeaderSeconds(d: int): int {
    Seconds(d).Floor
  }

  /** The number of whole seconds a duration is rendered as, rounded up. */
  function HeaderSecondsCeil(d: int): int {
    Ceil(Seconds(d))
  }

  function Min(x: real, y: real): real {
    if x <= y then x else y
  }

  function Max(x: real, y: real): real {
    if x >= y then x else y
  }

  predicate Whole(x: real) {
    x == x.Floor as real
  }

  /** The time, in nanoseconds, in which a rate produces one token. */
  function Period(rate: real): real
    requires rate > 0.0
  {
    1.0 / rate * 1_000_000_000.0
  }

  /** Readings of a clock that never runs backwards. */
  ghost predicate Nondecreasing(times: seq<int>) {
    forall i, j :: 0 <= i <= j < |times| ==> times[i] <= times[j]
  }

  /** n calls at one instant. */
  function AtOnce(now: int, n: nat): (times: seq<int>)
    ensures |times| == n && forall k :: 0 <= k < n ==> times[k] == now
  {
    seq(n, _ => now)
  }

  function Fewer(n: nat, m: int): int {
    if n <= m then n else m
  }

  /** Scaling by a rate keeps the order. */
  lemma ScaleOrder(r: real, x: real, y: real)
    requires r >= 0.0 && x <= y
    ensures r * x <= r * y
  {
    assert r * (y - x) >= 0.0;
    assert r * (y - x) == r * y - r * x;
  }

  lemma PeriodIsPositive(rate: real)
    requires rate > 0.0
    ensures Period(rate) > 0.0
    ensures Period(rate) * rate == 1_000_000_000.0
  {
    var p := 1.0 / rate;
    assert p * rate == 1.0;
    if p <= 0.0 {
      ScaleOrder(rate, p, 0.0);
    }
  }

  lemma IntegerIsWhole(n: int, x: real)
    requires x == n as real
    ensures Whole(x) && x.Floor == n
  {
  }

  /** Cutting whole multiples takes nothing off. */
  lemma WholeCut(n: int, x: real, told: int)
    requires Whole(x) && told == (n as real * x).Floor
    ensures told as real == n as real * x
  {
    WholeProduct(n, x);
  }

  lemma WholeSum(x: real, y: real)
    requires Whole(x) && Whole(y)
    ensures Whole(x + y) && Whole(x - y)
  {
    var m, n := x.Floor, y.Floor;
    assert x == m as real && y == n as real;
    hide Whole;
    IntegerIsWhole(m + n, x + y);
    IntegerIsWhole(m - n, x - y);
  }

  lemma WholeProduct(n: int, x: real)
    requires Whole(x)
    ensures Whole(n as real * x)
  {
    IntegerIsWhole(n * x.Floor, n as real * x);
  }

  lemma StrictScaleOrder(r: real, x: real, y: real)
    requires r > 0.0 && x < y
    ensures r * x < r * y
  {
    assert r * (y - x) > 0.0;
    assert r * (y - x) == r * y - r * x;
  }

  lemma CancelFactor(x: real, y: real, w: real)
    requires w != 0.0 && x * w == y * w
    ensures x == y
  {
    assert (x - y) * w == 0.0;
  }

  /** The defining property of the ceiling. */
  lemma CeilBounds(x: real)
    ensures x <= Ceil(x) as real < x + 1.0
  {
  }

  /** Cutting is towards zero, by less than one. */
  lemma TruncateIsTowardsZero(x: real)
    ensures x >= 0.0 ==> 0.0 <= Truncate(x) as real <= x < Truncate(x) as real + 1.0
    ensures x <= 0.0 ==> Truncate(x) as real - 1.0 < x <= Truncate(x) as real <= 0.0
  {
  }

  /** Cutting a number to an integer leaves it as it is exactly when it was one. */
  lemma TruncateIsExact(x: real)
    ensures Truncate(x) as real == x <==> x == x.Floor as real
    ensures x >= 0.0 ==> Truncate(x) == x.Floor
  {
    var t := Truncate(x);
    assert t as real == x ==> x.Floor == t;
    assert x == x.Floor as real ==> (-x).Floor == -x.Floor;
  }

  lemma CeilOfWhole(x: real, n: int)
    requires x == n as real
    ensures Ceil(x) == n
  {
    CeilBounds(x);
    assert n as real <= Ceil(x) as real < (n + 1) as real;
  }
}
