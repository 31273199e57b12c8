/** `Math.round(n / d * 100)` on exact rationals, for a positive denominator.
    JavaScript's `Math.round(x)` is `floor(x + 1/2)` (halves round up), so
    `Math.round(100 * n / d)` is `floor((200 * n + d) / (2 * d))`; Dafny's `/`
    on `int` with a positive divisor is that floor. */
module Percent {

  /** The integer nearest to `100 * n / d`, halves rounded upwards. */
  function RoundedPercent(n: int, d: int): (r: int)
    requires d > 0
    ensures 2 * d * r <= 200 * n + d < 2 * d * (r + 1)
  {
    (200 * n + d) / (2 * d)
  }

  /** Cancelling a positive factor from a strict inequality. */
  lemma CancelFactor(k: int, a: int, b: int)
    requires k > 0 && k * a < k * b
    ensures a < b
  {
  }

  /** A fraction between 0 and 1 rounds to a percentage between 0 and 100. */
  lemma RoundedPercentBounds(n: int, d: int)
    requires 0 <= n <= d && d > 0
    ensures 0 <= RoundedPercent(n, d) <= 100
  {
    var r := RoundedPercent(n, d);
    CancelFactor(2 * d, 0, r + 1);
    CancelFactor(2 * d, r, 101);
  }

  /** The whole is 100 percent and nothing is 0 percent. */
  lemma RoundedPercentEnds(d: int)
    requires d > 0
    ensures RoundedPercent(d, d) == 100
    ensures RoundedPercent(0, d) == 0
  {
    var full, none := RoundedPercent(d, d), RoundedPercent(0, d);
    CancelFactor(2 * d, full, 101);
    CancelFactor(2 * d, 100, full + 1);
    CancelFactor(2 * d, none, 1);
    CancelFactor(2 * d, 0, none + 1);
  }

  /** For a fixed denominator, rounding is monotone in the numerator. */
  lemma RoundedPercentMonotone(m: int, n: int, d: int)
    requires m <= n && d > 0
    ensures RoundedPercent(m, d) <= RoundedPercent(n, d)
  {
    var a, b := RoundedPercent(m, d), RoundedPercent(n, d);
    CancelFactor(2 * d, a, b + 1);
  }
}
