/** Exponential backoff between attempts: `retry_delay` of app/workers/durable.py. */
module Backoff {

  function Pow2(n: nat): (p: int)
    ensures p >= 1
  {
    if n == 0 then 1 else 2 * Pow2(n - 1)
  }

  function Min(a: real, b: real): real {
    if b < a then b else a
  }

  function Exponent(attempt: int): nat {
    if attempt - 1 > 0 then attempt - 1 else 0
  }

  function RetryDelay(attempt: int, base: real, maximum: real): real {
    Min(maximum, base * Pow2(Exponent(attempt)) as real)
  }

  /** base * 2^n by repeated doubling, which keeps the proofs below linear. */
  function Doubled(base: real, n: nat): real {
    if n == 0 then base else 2.0 * Doubled(base, n - 1)
  }

  lemma {:induction false} DoubledIsPower(base: real, n: nat)
    ensures base * Pow2(n) as real == Doubled(base, n)
  {
    if n > 0 {
      DoubledIsPower(base, n - 1);
      var p := Pow2(n - 1) as real;
      assert Pow2(n) as real == 2.0 * p;
      assert base * (2.0 * p) == 2.0 * (base * p);
    }
  }

  lemma {:induction false} DoubledMonotone(base: real, m: nat, n: nat)
    requires base >= 0.0 && m <= n
    ensures 0.0 <= Doubled(base, m) <= Doubled(base, n)
    decreases n
  {
    if m < n {
      DoubledMonotone(base, m, n - 1);
    } else if n > 0 {
      DoubledMonotone(base, n - 1, n - 1);
    }
  }

  lemma DelayIsDoubled(attempt: int, base: real, maximum: real)
    ensures RetryDelay(attempt, base, maximum) == Min(maximum, Doubled(base, Exponent(attempt)))
  {
    DoubledIsPower(base, Exponent(attempt));
  }

  /** The delay never exceeds the cap, is never negative, and never shrinks from one attempt to a later one. */
  lemma DelayBoundedAndMonotone(a: int, b: int, base: real, maximum: real)
    requires base >= 0.0 && maximum >= 0.0 && a <= b
    ensures 0.0 <= RetryDelay(a, base, maximum) <= RetryDelay(b, base, maximum) <= maximum
  {
    DelayIsDoubled(a, base, maximum);
    DelayIsDoubled(b, base, maximum);
    DoubledMonotone(base, Exponent(a), Exponent(b));
  }

  /** The first attempt waits the base, or the cap if that is less; so do counts below one. */
  lemma FirstDelay(attempt: int, base: real, maximum: real)
    requires attempt <= 1
    ensures RetryDelay(attempt, base, maximum) == if maximum < base then maximum else base
  {
    DelayIsDoubled(attempt, base, maximum);
  }

  /** From one attempt to the next the delay doubles, until the cap takes over for good. */
  lemma DelayDoublesUntilCapped(attempt: int, base: real, maximum: real)
    requires base >= 0.0 && maximum >= 0.0 && attempt >= 1
    ensures RetryDelay(attempt + 1, base, maximum) == Min(maximum, 2.0 * RetryDelay(attempt, base, maximum))
  {
    DelayIsDoubled(attempt, base, maximum);
    DelayIsDoubled(attempt + 1, base, maximum);
    DoubledMonotone(base, 0, Exponent(attempt));
  }

  /** The delays of attempts 1 to n, added up. */
  function TotalDelay(n: nat, base: real, maximum: real): real {
    if n == 0 then 0.0 else TotalDelay(n - 1, base, maximum) + RetryDelay(n, base, maximum)
  }

  /** n caps. */
  function Caps(n: nat, maximum: real): real {
    if n == 0 then 0.0 else Caps(n - 1, maximum) + maximum
  }

  lemma {:induction false} CapsIsProduct(n: nat, maximum: real)
    ensures Caps(n, maximum) == n as real * maximum
  {
    if n > 0 {
      CapsIsProduct(n - 1, maximum);
      var x := (n - 1) as real;
      assert n as real == x + 1.0;
      assert (x + 1.0) * maximum == x * maximum + maximum;
    }
  }

  lemma {:induction false} TotalDelayCapped(n: nat, base: real, maximum: real)
    ensures TotalDelay(n, base, maximum) <= Caps(n, maximum)
  {
    if n > 0 {
      TotalDelayCapped(n - 1, base, maximum);
    }
  }

  lemma {:induction false} TotalDelayDoubled(n: nat, base: real, maximum: real)
    ensures TotalDelay(n, base, maximum) <= Doubled(base, n) - base
  {
    if n > 0 {
      TotalDelayDoubled(n - 1, base, maximum);
      DelayIsDoubled(n, base, maximum);
    }
  }

  /** base + 2 * base + ... for n terms. */
  function Geometric(base: real, n: nat): real {
    Doubled(base, n) - base
  }

  lemma GeometricIsProduct(base: real, n: nat)
    ensures Geometric(base, n) == base * (Pow2(n) - 1) as real
  {
    DoubledIsPower(base, n);
    var p := Pow2(n) as real;
    assert base * (p - 1.0) == base * p - base;
    assert (Pow2(n) - 1) as real == p - 1.0;
  }

  /** The delays of attempts 1 to n add up to at most n caps, and to at most the uncapped geometric series. */
  lemma TotalDelayBound(n: nat, base: real, maximum: real)
    ensures TotalDelay(n, base, maximum) <= n as real * maximum
    ensures TotalDelay(n, base, maximum) <= base * (Pow2(n) - 1) as real
  {
    TotalDelayCapped(n, base, maximum);
    CapsIsProduct(n, maximum);
    TotalDelayDoubled(n, base, maximum);
    GeometricIsProduct(base, n);
  }
}
