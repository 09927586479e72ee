/** The reconnect delays: capped exponential backoff in 32-bit arithmetic. */
module Backoff {
  import opened Arithmetic

  const MAX_SHIFT := 10
  const INT32_MIN := -0x8000_0000
  const INT32_MAX := 0x7FFF_FFFF

  predicate FitsInt32(x: int) {
    INT32_MIN <= x <= INT32_MAX
  }

  /** min * (1 << min(attempt, 10)); signed overflow is undefined in the source, so it is kept exact here. */
  function Scaled(minSec: int, attempt: nat): int {
    minSec * Pow2(Min(attempt, MAX_SHIFT))
  }

  function Delay(minSec: int, maxSec: int, attempt: nat): (delay: int)
    ensures delay <= maxSec
  {
    Min(maxSec, Scaled(minSec, attempt))
  }

  lemma ScaleMonotone(minSec: int, p: nat, q: nat)
    requires p <= q
    ensures 0 <= minSec ==> minSec * p <= minSec * q
    ensures minSec <= 0 ==> minSec * q <= minSec * p
  {
  }

  /** The product never leaves 32 bits, whatever the attempt, exactly when its largest multiple fits. */
  lemma NoOverflowIff(minSec: int)
    ensures (forall attempt: nat :: FitsInt32(Scaled(minSec, attempt))) <==> FitsInt32(1024 * minSec)
  {
    Pow2Ten();
    assert Scaled(minSec, 10) == minSec * 1024;
    if FitsInt32(1024 * minSec) {
      forall attempt: nat
        ensures FitsInt32(Scaled(minSec, attempt))
      {
        var k := Min(attempt, MAX_SHIFT);
        Pow2Monotone(k, 10);
        ScaleMonotone(minSec, 0, Pow2(k));
        ScaleMonotone(minSec, Pow2(k), 1024);
      }
    }
  }

  ghost predicate NeverFalls(minSec: int, maxSec: int) {
    forall i: nat, j: nat :: i <= j ==> Delay(minSec, maxSec, i) <= Delay(minSec, maxSec, j)
  }

  lemma DelaysRise(minSec: int, maxSec: int, i: nat, j: nat)
    requires i <= j && 0 <= minSec
    ensures Delay(minSec, maxSec, i) <= Delay(minSec, maxSec, j)
  {
    Pow2Monotone(Min(i, MAX_SHIFT), Min(j, MAX_SHIFT));
    ScaleMonotone(minSec, Pow2(Min(i, MAX_SHIFT)), Pow2(Min(j, MAX_SHIFT)));
  }

  lemma ScaledAbove(minSec: int, attempt: nat)
    requires minSec < 0
    ensures 1024 * minSec <= Scaled(minSec, attempt)
  {
    Pow2Ten();
    Pow2Monotone(Min(attempt, MAX_SHIFT), 10);
    ScaleMonotone(minSec, Pow2(Min(attempt, MAX_SHIFT)), 1024);
  }

  /** Delays never fall exactly when the minimum is not negative, or the maximum hides all its multiples. */
  lemma NeverFallsIff(minSec: int, maxSec: int)
    ensures NeverFalls(minSec, maxSec) <==> minSec >= 0 || maxSec <= 1024 * minSec
  {
    if minSec >= 0 {
      forall i: nat, j: nat | i <= j
        ensures Delay(minSec, maxSec, i) <= Delay(minSec, maxSec, j)
      {
        DelaysRise(minSec, maxSec, i, j);
      }
    } else if maxSec <= 1024 * minSec {
      forall i: nat
        ensures Delay(minSec, maxSec, i) == maxSec
      {
        ScaledAbove(minSec, i);
      }
    } else {
      Pow2Ten();
      assert Scaled(minSec, 0) == minSec * 1 && Scaled(minSec, 10) == minSec * 1024;
      assert Delay(minSec, maxSec, 10) < Delay(minSec, maxSec, 0);
    }
  }

  /** The documented formula, without the cap on the exponent. */
  function DocumentedDelay(minSec: int, maxSec: int, attempt: nat): int {
    Min(maxSec, minSec * Pow2(attempt))
  }

  /** The code meets the documented formula at every attempt exactly when the cap cannot show. */
  lemma DocumentedFormulaIff(minSec: int, maxSec: int)
    ensures (forall attempt: nat :: Delay(minSec, maxSec, attempt) == DocumentedDelay(minSec, maxSec, attempt))
       <==> minSec == 0 || (0 < minSec && maxSec <= 1024 * minSec)
  {
    Pow2Ten();
    if minSec == 0 || (0 < minSec && maxSec <= 1024 * minSec) {
      forall attempt: nat
        ensures Delay(minSec, maxSec, attempt) == DocumentedDelay(minSec, maxSec, attempt)
      {
        if attempt > MAX_SHIFT {
          Pow2Monotone(10, attempt);
          ScaleMonotone(minSec, 1024, Pow2(attempt));
        }
      }
    } else if 0 < minSec {
      assert Pow2(11) == 2048;
      assert Delay(minSec, maxSec, 11) != DocumentedDelay(minSec, maxSec, 11);
    } else {
      var attempt := UncappedFalls(minSec, maxSec, Delay(minSec, maxSec, 10));
      assert Delay(minSec, maxSec, attempt) == Delay(minSec, maxSec, 10);
    }
  }

  lemma NegativeScale(x: int, attempt: nat, p: nat)
    requires x < 0 && attempt < p
    ensures x * p < 0 - attempt
  {
  }

  /** With a negative minimum the documented formula has no lower bound. */
  lemma UncappedFalls(minSec: int, maxSec: int, bound: int) returns (attempt: nat)
    requires minSec < 0
    ensures attempt >= 10 && DocumentedDelay(minSec, maxSec, attempt) < bound
  {
    attempt := 10 + if bound < 0 then -bound else bound;
    NegativeScale(minSec, attempt, Pow2(attempt));
  }

  function TotalDelay(minSec: int, maxSec: int, n: nat): int {
    if n == 0 then 0 else TotalDelay(minSec, maxSec, n - 1) + Delay(minSec, maxSec, n - 1)
  }

  /** The longest delay there is: the maximum, or what the exponent cap leaves of it. */
  function Longest(minSec: nat, maxSec: int): int {
    Min(maxSec, 1024 * minSec)
  }

  /** `k` is the first attempt whose delay is the longest. */
  predicate FirstSaturated(minSec: nat, maxSec: int, k: nat) {
    Longest(minSec, maxSec) <= minSec * Pow2(k) && (k > 0 ==> minSec * Pow2(k - 1) < Longest(minSec, maxSec))
  }

  /** The exponent cap acts like a maximum of 1024 times the minimum. */
  lemma CapIsMaximum(minSec: nat, maxSec: int, attempt: nat)
    ensures Delay(minSec, maxSec, attempt) == DocumentedDelay(minSec, Longest(minSec, maxSec), attempt)
  {
    Pow2Ten();
    if attempt > MAX_SHIFT {
      Pow2Monotone(10, attempt);
      ScaleMonotone(minSec, 1024, Pow2(attempt));
    } else {
      Pow2Monotone(attempt, 10);
      ScaleMonotone(minSec, Pow2(attempt), 1024);
    }
  }

  lemma DelayAround(minSec: nat, maxSec: int, k: nat, attempt: nat)
    requires FirstSaturated(minSec, maxSec, k)
    ensures Delay(minSec, maxSec, attempt) == if attempt < k then minSec * Pow2(attempt) else Longest(minSec, maxSec)
  {
    CapIsMaximum(minSec, maxSec, attempt);
    if attempt < k {
      Pow2Monotone(attempt, k - 1);
      ScaleMonotone(minSec, Pow2(attempt), Pow2(k - 1));
    } else {
      Pow2Monotone(k, attempt);
      ScaleMonotone(minSec, Pow2(k), Pow2(attempt));
    }
  }

  /** Every non-negative minimum has a first saturated attempt, at most the tenth. */
  lemma SaturatesByTen(minSec: nat, maxSec: int) returns (k: nat)
    ensures k <= 10 && FirstSaturated(minSec, maxSec, k)
  {
    Pow2Ten();
    k := 0;
    while k < 10 && minSec * Pow2(k) < Longest(minSec, maxSec)
      invariant k <= 10 && (k > 0 ==> minSec * Pow2(k - 1) < Longest(minSec, maxSec))
    {
      k := k + 1;
    }
    assert k == 10 ==> minSec * Pow2(k) == minSec * 1024;
  }

  /** The closed form, for a geometric part of `k` delays. */
  function Total(minSec: nat, longest: int, k: nat, n: nat): int {
    if n <= k then minSec * (Pow2(n) - 1) else minSec * (Pow2(k) - 1) + (n - k) * longest
  }

  lemma TotalGrows(minSec: nat, longest: int, k: nat, n: nat)
    ensures Total(minSec, longest, k, n + 1) ==
      Total(minSec, longest, k, n) + if n < k then minSec * Pow2(n) else longest
  {
    ScaleSteps(minSec, Pow2(n), longest, n - k);
  }

  lemma ScaleSteps(x: int, p: int, y: int, n: int)
    ensures x * (2 * p - 1) == x * (p - 1) + x * p
    ensures (n + 1) * y == n * y + y
  {
  }

  /** Closed form of the total wait: a geometric part up to saturation, then a linear part. */
  lemma {:induction false} TotalDelayClosedForm(minSec: nat, maxSec: int, k: nat, n: nat)
    requires FirstSaturated(minSec, maxSec, k)
    ensures TotalDelay(minSec, maxSec, n) == Total(minSec, Longest(minSec, maxSec), k, n)
  {
    if n == 0 {
    } else {
      TotalDelayClosedForm(minSec, maxSec, k, n - 1);
      DelayAround(minSec, maxSec, k, n - 1);
      TotalGrows(minSec, Longest(minSec, maxSec), k, n - 1);
    }
  }
}
