/**
 * The deadline countdown (components/Countdown.tsx): the split of the time
 * left into days, hours, minutes and seconds, the state the interval
 * callback overwrites, and the width of the progress bar.
 */
module Countdown {
  import Arith

  const MsPerSecond: nat := 1000
  const MsPerMinute: nat := 60000
  const MsPerHour: nat := 3600000
  const MsPerDay: nat := 86400000
  /** The progress bar spans the last thirty days before the deadline. */
  const BarSpan: nat := 2592000000

  datatype TimeLeft = TimeLeft(days: int, hours: int, minutes: int, seconds: int)

  /** `Math.floor(d / k)` for whole milliseconds is integer division. */
  lemma FloorQuotient(d: int, k: nat)
    requires k > 0
    ensures ((d as real) / (k as real)).Floor == d / k
  {
    var q := d / k;
    assert d == k * q + d % k;
    assert (q as real) * (k as real) <= d as real;
    assert (d as real) < ((q + 1) as real) * (k as real);
    DivBounds(d as real, k as real, q as real);
  }

  /** Dividing `q * k <= d < (q + 1) * k` by a positive `k`. */
  lemma DivBounds(d: real, k: real, q: real)
    requires k > 0.0 && q * k <= d < (q + 1.0) * k
    ensures q <= d / k < q + 1.0
  {
    var x := d / k;
    assert x * k == d;
    if x < q {
      MulNonneg(q - x, k);
    }
    if x >= q + 1.0 {
      MulNonneg(x - q - 1.0, k);
    }
  }

  lemma MulNonneg(a: real, b: real)
    requires a >= 0.0 && b >= 0.0
    ensures a * b >= 0.0
  {
  }

  /** JavaScript's `x % m` for `x >= 0`: what is left after taking out whole m's. */
  function JsRem(x: real, m: nat): real
    requires m > 0
  {
    x - (m as real) * ((x / m as real).Floor as real)
  }

  /** `Math.floor(d / k % m)` for whole milliseconds is `(d / k) % m`. */
  lemma FloorOfRem(d: nat, k: nat, m: nat)
    requires k > 0 && m > 0
    ensures JsRem((d as real) / (k as real), m).Floor == (d / k) % m
  {
    var x := (d as real) / (k as real);
    assert x / (m as real) == (d as real) / ((k * m) as real);
    FloorQuotient(d, k * m);
    Arith.DivDiv(d, k, m);
    FloorQuotient(d, k);
    var q := (d / k) / m;
    assert JsRem(x, m) == x - ((m * q) as real);
    assert d / k == m * q + (d / k) % m;
  }

  /**
   * `calculateTimeLeft` on a positive difference in milliseconds, with the
   * source's floors of quotients and remainders. The four figures are a
   * mixed-radix reading of the whole seconds left.
   */
  function Split(difference: int): (t: TimeLeft)
    requires difference > 0
    ensures t.days >= 0 && 0 <= t.hours < 24 && 0 <= t.minutes < 60 && 0 <= t.seconds < 60
    ensures t.days == difference / MsPerDay
    ensures t.days * 86400 + t.hours * 3600 + t.minutes * 60 + t.seconds == difference / MsPerSecond
  {
    var d := difference as real;
    FloorQuotient(difference, MsPerDay);
    FloorOfRem(difference, MsPerHour, 24);
    assert d / 1000.0 / 60.0 == d / (MsPerMinute as real);
    FloorOfRem(difference, MsPerMinute, 60);
    FloorOfRem(difference, MsPerSecond, 60);
    SplitIsMixedRadix(difference);
    TimeLeft((d / MsPerDay as real).Floor,
             JsRem(d / MsPerHour as real, 24).Floor,
             JsRem(d / 1000.0 / 60.0, 60).Floor,
             JsRem(d / 1000.0, 60).Floor)
  }

  lemma SplitIsMixedRadix(d: nat)
    ensures var s := d / 1000;
      (d / 86400000) * 86400 + ((d / 3600000) % 24) * 3600 + ((d / 60000) % 60) * 60 + s % 60 == s
  {
    var s := d / 1000;
    Arith.DivDiv(d, 1000, 60);
    Arith.DivDiv(d, 60000, 60);
    Arith.DivDiv(d, 3600000, 24);
    var m := d / 60000;
    var h := d / 3600000;
    var days := d / 86400000;
    assert m == s / 60;
    assert h == m / 60;
    assert days == h / 24;
    assert s == 60 * m + s % 60;
    assert m == 60 * h + m % 60;
    assert h == 24 * days + h % 24;
  }

  /** Two differences in the same whole second read the same. */
  lemma SplitBySecond(d1: int, d2: int)
    requires d1 > 0 && d2 > 0 && d1 / MsPerSecond == d2 / MsPerSecond
    ensures Split(d1) == Split(d2)
  {
    var s := d1 / 1000;
    Arith.DivDiv(d1, 1000, 60);
    Arith.DivDiv(d2, 1000, 60);
    Arith.DivDiv(d1, 1000, 3600);
    Arith.DivDiv(d2, 1000, 3600);
    Arith.DivDiv(d1, 1000, 86400);
    Arith.DivDiv(d2, 1000, 86400);
  }

  /**
   * The width of the progress bar, in percent:
   * `min(100, max(0, (1 - difference / span) * 100))`.
   */
  function BarWidth(difference: int): (w: real)
    ensures 0.0 <= w <= 100.0
    ensures difference <= 0 ==> w == 100.0
    ensures difference >= BarSpan ==> w == 0.0
    ensures 0 < difference < BarSpan ==> w * BarSpan as real == ((BarSpan - difference) * 100) as real
  {
    var raw := (1.0 - difference as real / BarSpan as real) * 100.0;
    if raw < 0.0 then 0.0 else if raw > 100.0 then 100.0 else raw
  }

  /** The bar never shrinks as the deadline comes closer. */
  lemma BarWidthMonotone(d1: int, d2: int)
    requires d1 <= d2
    ensures BarWidth(d2) <= BarWidth(d1)
  {
  }

  /**
   * The component's state: the figures last shown. They start at zero and
   * the interval callback overwrites them only while the deadline is ahead.
   */
  class Clock {
    const target: int
    var timeLeft: TimeLeft

    constructor (target: int)
      ensures this.target == target
      ensures timeLeft == TimeLeft(0, 0, 0, 0)
    {
      this.target := target;
      timeLeft := TimeLeft(0, 0, 0, 0);
    }

    /** One run of `calculateTimeLeft` at time `now` (milliseconds). */
    method Tick(now: int)
      modifies this
      ensures target - now > 0 ==> timeLeft == Split(target - now)
      ensures target - now <= 0 ==> timeLeft == old(timeLeft)
    {
      var difference := target - now;
      if difference > 0 {
        timeLeft := Split(difference);
      }
    }

    function Width(now: int): (w: real)
      ensures 0.0 <= w <= 100.0
      ensures w == BarWidth(target - now)
      ensures now >= target ==> w == 100.0
    {
      BarWidth(target - now)
    }
  }
}
