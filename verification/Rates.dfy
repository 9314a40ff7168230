/** Rates rounded to six decimal places, and what the rounding does to a comparison with a gate. */
module Rates {
  const MICRO := 1_000_000

  /** `numerator / denominator` rounded to the nearest integer, ties to the even one. */
  function Rounded(numerator: nat, denominator: nat): (r: nat)
    requires denominator > 0
  {
    var q, rest := numerator / denominator, numerator % denominator;
    if 2 * rest < denominator || (2 * rest == denominator && q % 2 == 0) then q else q + 1
  }

  /** `_safe_rate`, in millionths. */
  function SafeRate(numerator: nat, denominator: nat): nat {
    if denominator == 0 then 0 else Rounded(numerator * MICRO, denominator)
  }

  /** The rounded value is within one half of the exact one, and even when it is exactly one half away. */
  lemma RoundedNearest(numerator: nat, denominator: nat)
    requires denominator > 0
    ensures var r := Rounded(numerator, denominator);
            var error: int := 2 * (r * denominator - numerator);
            && (error <= denominator && error + denominator >= 0)
            && (error == denominator || error + denominator == 0 ==> r % 2 == 0)
  {
    var q, rest := numerator / denominator, numerator % denominator;
    assert numerator == q * denominator + rest;
    assert (q + 1) * denominator == q * denominator + denominator;
  }

  /** Comparing a rounded value with an even bound is comparing the exact one with a bound half a unit away. */
  lemma RoundedAtLeast(numerator: nat, denominator: nat, bound: nat)
    requires denominator > 0 && bound % 2 == 0
    ensures Rounded(numerator, denominator) >= bound <==> 2 * numerator >= (2 * bound - 1) * denominator
    ensures Rounded(numerator, denominator) <= bound <==> 2 * numerator <= (2 * bound + 1) * denominator
  {
    var r := Rounded(numerator, denominator);
    RoundedNearest(numerator, denominator);
    var gap := r - bound;
    assert r * denominator == bound * denominator + gap * denominator;
    assert (2 * bound - 1) * denominator == 2 * (bound * denominator) - denominator;
    assert (2 * bound + 1) * denominator == 2 * (bound * denominator) + denominator;
    Scale(gap, denominator);
  }

  lemma Scale(gap: int, denominator: nat)
    ensures gap >= 1 ==> gap * denominator >= denominator
    ensures gap <= -1 ==> gap * denominator + denominator <= 0
    ensures gap >= 2 ==> gap * denominator >= 2 * denominator
    ensures gap <= -2 ==> gap * denominator + 2 * denominator <= 0
  {
  }

  lemma {:induction false} QuotientMonotone(x: nat, y: nat, denominator: nat)
    requires x <= y && denominator > 0
    ensures x / denominator <= y / denominator
    ensures x / denominator == y / denominator ==> x % denominator <= y % denominator
  {
    var qx, qy := x / denominator, y / denominator;
    assert x == qx * denominator + x % denominator && y == qy * denominator + y % denominator;
    assert (qx - qy) * denominator == qx * denominator - qy * denominator;
    Scale(qx - qy, denominator);
  }

  lemma {:induction false} SafeRateMonotone(a: nat, b: nat, denominator: nat)
    requires a <= b
    ensures SafeRate(a, denominator) <= SafeRate(b, denominator)
  {
    if denominator > 0 {
      QuotientMonotone(a * MICRO, b * MICRO, denominator);
    }
  }

  // ----- the gates

  /** The exact comparison of `n / d` with `percent` hundredths. */
  predicate AtLeast(n: nat, d: nat, percent: nat) {
    100 * n >= percent * d
  }

  predicate AtMost(n: nat, d: nat, percent: nat) {
    100 * n <= percent * d
  }

  /**
   A rounded rate reaches a gate exactly when the exact rate reaches it or misses it by so little that rounding hides
   the miss: by at most half a millionth.
   */
  lemma RecallGate(n: nat, d: nat, percent: nat)
    requires d > 0
    ensures SafeRate(n, d) >= percent * 10_000 <==> 20_000 * (percent * d - 100 * n) <= d
  {
    RoundedAtLeast(n * MICRO, d, percent * 10_000);
    assert (2 * (percent * 10_000) - 1) * d == 20_000 * (percent * d) - d;
  }

  lemma FalsePositiveGate(n: nat, d: nat, percent: nat)
    requires d > 0
    ensures SafeRate(n, d) <= percent * 10_000 <==> 20_000 * (100 * n - percent * d) <= d
  {
    RoundedAtLeast(n * MICRO, d, percent * 10_000);
    assert (2 * (percent * 10_000) + 1) * d == 20_000 * (percent * d) + d;
  }

  /**
   For a gate in whole hundredths the rounding decides nothing below twenty thousand samples: the exact rate misses
   a gate by a multiple of `1 / (100 * d)`, which is then more than half a millionth.
   */
  lemma RoundingHarmless(n: nat, d: nat, percent: nat)
    requires 0 < d < 20_000
    ensures SafeRate(n, d) >= percent * 10_000 <==> AtLeast(n, d, percent)
    ensures SafeRate(n, d) <= percent * 10_000 <==> AtMost(n, d, percent)
  {
    RecallGate(n, d, percent);
    FalsePositiveGate(n, d, percent);
  }

  /** For the gates of the policy it decides nothing below a hundred thousand, or forty thousand for 98 percent. */
  lemma PolicyRoundingHarmless(n: nat, d: nat)
    requires 0 < d
    ensures d < 100_000 ==> (SafeRate(n, d) >= 950_000 <==> AtLeast(n, d, 95))
    ensures d < 40_000 ==> (SafeRate(n, d) >= 980_000 <==> AtLeast(n, d, 98))
    ensures d < 100_000 ==> (SafeRate(n, d) <= 50_000 <==> AtMost(n, d, 5))
  {
    hide SafeRate;
    var k95, k98, k5 := 19 * d - 20 * n, 49 * d - 50 * n, 20 * n - d;
    RecallGate(n, d, 95);
    assert 20_000 * (95 * d - 100 * n) == 100_000 * k95;
    RecallGate(n, d, 98);
    assert 20_000 * (98 * d - 100 * n) == 40_000 * k98;
    FalsePositiveGate(n, d, 5);
    assert 20_000 * (100 * n - 5 * d) == 100_000 * k5;
  }

  /** The bounds cannot be dropped: with 100019 samples, or 40049, a rate below the gate passes it. */
  lemma RoundingCanDecide()
    ensures SafeRate(95_018, 100_019) >= 950_000 && !AtLeast(95_018, 100_019, 95)
    ensures SafeRate(39_248, 40_049) >= 980_000 && !AtLeast(39_248, 40_049, 98)
    ensures SafeRate(5_001, 100_019) <= 50_000 && !AtMost(5_001, 100_019, 5)
  {
    RecallGate(95_018, 100_019, 95);
    RecallGate(39_248, 40_049, 98);
    FalsePositiveGate(5_001, 100_019, 5);
  }
}
