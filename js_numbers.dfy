/**
 * JavaScript numbers on non-negative integers. A Number is an IEEE-754
 * double: every integer below 2^53 is exact, and above that an integer result
 * of `*`, `+` or `Number(bigint)` is rounded to the nearest multiple of the
 * unit in the last place, ties going to the even multiple. Infinity is not
 * represented: the integers here stay far below 2^1024.
 */
module JsNumbers {
  import ModArith

  const TWO_53: nat := 0x20_0000_0000_0000

  /** The spacing of the doubles around `n`: 1 below 2^53, doubling with every further binary digit. */
  function Ulp(n: nat): (u: nat)
    ensures u >= 1
    ensures n >= TWO_53 ==> u % 2 == 0
    decreases n
  {
    if n < TWO_53 then 1 else 2 * Ulp(n / 2)
  }

  /** The Number nearest to `n`, ties to even: what JavaScript holds for the integer `n`. */
  function ToNumber(n: nat): nat {
    if n < TWO_53 then n else RoundToMultiple(n, Ulp(n))
  }

  /** The multiple of `u` nearest to `n`, ties to the even multiple. */
  function RoundToMultiple(n: nat, u: nat): nat
    requires u >= 1
  {
    RoundHalfEven(n / u, n % u, u)
  }

  /** `q` or `q + 1` steps of `u`, whichever lies nearer to `q * u + rem`; on a tie, the even one. */
  function RoundHalfEven(q: nat, rem: nat, u: nat): nat {
    if 2 * rem > u || (2 * rem == u && q % 2 == 1) then (q + 1) * u else q * u
  }

  /** Integers below 2^53 are exact; rounding a larger one gives an even Number, still at least 2^53. */
  lemma ToNumberRange(n: nat)
    ensures n < TWO_53 ==> ToNumber(n) == n
    ensures n >= TWO_53 ==> ToNumber(n) >= TWO_53 && ToNumber(n) % 2 == 0
  {
    if n >= TWO_53 {
      UlpScale(n);
      RoundsAboveAndEven(n, Ulp(n));
    }
  }

  /** `ToNumber` keeps only multiples of the spacing around `n`... */
  lemma ToNumberIsMultiple(n: nat)
    ensures ToNumber(n) % Ulp(n) == 0
  {
    if n >= TWO_53 {
      RoundsToMultiple(n, Ulp(n));
    }
  }

  /** ... and moves `n` by at most half of that spacing. */
  lemma ToNumberIsNearest(n: nat)
    ensures 2 * n - Ulp(n) <= 2 * ToNumber(n) <= 2 * n + Ulp(n)
  {
    if n >= TWO_53 {
      RoundsNear(n, Ulp(n));
    }
  }

  lemma RoundsAboveAndEven(n: nat, u: nat)
    requires u >= 1 && u % 2 == 0 && (TWO_53 / 2) * u <= n
    ensures RoundToMultiple(n, u) >= TWO_53 && RoundToMultiple(n, u) % 2 == 0
  {
    QuotientAtLeast(n, u, TWO_53 / 2);
    StepsAboveAndEven(n / u, n % u, u);
  }

  lemma StepsAboveAndEven(q: nat, rem: nat, u: nat)
    requires q >= TWO_53 / 2 && u % 2 == 0 && u >= 1
    ensures RoundHalfEven(q, rem, u) >= TWO_53 && RoundHalfEven(q, rem, u) % 2 == 0
  {
    EvenMultiple(q, u);
    EvenMultiple(q + 1, u);
    MulMonotone(TWO_53 / 2, q, u);
    MulMonotone(TWO_53 / 2, q + 1, u);
  }

  lemma RoundsToMultiple(n: nat, u: nat)
    requires u >= 1
    ensures RoundToMultiple(n, u) % u == 0
  {
    RoundIsMultiple(n / u, n % u, u);
  }

  lemma RoundsNear(n: nat, u: nat)
    requires u >= 1
    ensures 2 * n - u <= 2 * RoundToMultiple(n, u) <= 2 * n + u
  {
    RoundsToNearest(n / u, n % u, u, n);
  }

  lemma RoundIsMultiple(q: nat, rem: nat, u: nat)
    requires u >= 1
    ensures RoundHalfEven(q, rem, u) % u == 0
  {
    MultipleMod(q, u);
    MultipleMod(q + 1, u);
  }

  lemma RoundsToNearest(q: nat, rem: nat, u: nat, n: nat)
    requires rem < u && n == q * u + rem
    ensures 2 * n - u <= 2 * RoundHalfEven(q, rem, u) <= 2 * n + u
  {
    assert (q + 1) * u == q * u + u;
  }

  /** At and above 2^53, `n` holds at least 2^52 steps of its spacing. */
  lemma {:induction false} UlpScale(n: nat)
    requires n >= TWO_53
    ensures (TWO_53 / 2) * Ulp(n) <= n
    decreases n
  {
    if n / 2 >= TWO_53 {
      UlpScale(n / 2);
    }
  }

  lemma QuotientAtLeast(n: nat, u: nat, a: nat)
    requires u >= 1 && a * u <= n
    ensures n / u >= a
  {
    var q := n / u;
    assert n == q * u + n % u;
    assert (q + 1) * u == q * u + u;
    MulMonotone(q + 1, a, u);
  }

  lemma MulMonotone(a: nat, b: nat, u: nat)
    ensures a <= b ==> a * u <= b * u
  {
    if a <= b {
      assert b * u == a * u + (b - a) * u;
    }
  }

  lemma EvenMultiple(q: nat, u: nat)
    requires u % 2 == 0
    ensures (q * u) % 2 == 0
  {
    var h := u / 2;
    assert u == 2 * h;
    assert q * u == 2 * (q * h);
  }

  lemma MultipleMod(q: nat, u: nat)
    requires u >= 1
    ensures (q * u) % u == 0
  {
    ModArith.ModUnique(q * u, u, q, 0);
  }
}
