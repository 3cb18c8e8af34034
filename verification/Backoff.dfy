/** The retry delay: saturating 64-bit arithmetic against its ideal value. */
module Backoff {

  const U64_MAX: nat := 0xFFFF_FFFF_FFFF_FFFF
  const MAX_BACKOFF_SECONDS: nat := 900

  function Min(a: nat, b: nat): nat {
    if a <= b then a else b
  }

  function Pow2(n: nat): nat {
    if n == 0 then 1 else 2 * Pow2(n - 1)
  }

  function SaturatingMul(a: nat, b: nat): nat {
    Min(a * b, U64_MAX)
  }

  function SaturatingPow2(n: nat): nat {
    Min(Pow2(n), U64_MAX)
  }

  function BackoffSeconds(base: nat, attempt: nat, cap: nat): nat {
    if attempt == 0 then 0
    else Min(SaturatingMul(base, SaturatingPow2(attempt - 1)), cap)
  }

  lemma MulMonotone(a: nat, b: nat, c: nat)
    requires b <= c
    ensures a * b <= a * c
  {
  }

  /** Saturation never shows: for 64-bit inputs the result is the unbounded-integer one. */
  lemma BackoffIsIdeal(base: nat, attempt: nat, cap: nat)
    requires base <= U64_MAX && cap <= U64_MAX && attempt >= 1
    ensures BackoffSeconds(base, attempt, cap) == Min(base * Pow2(attempt - 1), cap)
  {
    var p := Pow2(attempt - 1);
    if base >= 1 && p > U64_MAX {
      MulMonotone(U64_MAX, 1, base);
      MulMonotone(base, U64_MAX, p);
    }
  }

  lemma {:induction false} Pow2Monotone(m: nat, n: nat)
    requires m <= n
    ensures 1 <= Pow2(m) <= Pow2(n)
    decreases n
  {
    if m < n {
      Pow2Monotone(m, n - 1);
    } else if n > 0 {
      Pow2Monotone(m - 1, n - 1);
    }
  }

  /** A later attempt never waits less. */
  lemma BackoffMonotone(base: nat, m: nat, n: nat, cap: nat)
    requires base <= U64_MAX && cap <= U64_MAX && m <= n
    ensures BackoffSeconds(base, m, cap) <= BackoffSeconds(base, n, cap)
  {
    if m >= 1 {
      BackoffIsIdeal(base, m, cap);
      BackoffIsIdeal(base, n, cap);
      Pow2Monotone(m - 1, n - 1);
      MulMonotone(base, Pow2(m - 1), Pow2(n - 1));
    }
  }

  /** With the configured lower bound of one second, every retry lies 1 to 900 seconds ahead. */
  lemma BackoffRange(base: nat, attempt: nat)
    requires 1 <= base <= U64_MAX && attempt >= 1
    ensures 1 <= BackoffSeconds(base, attempt, MAX_BACKOFF_SECONDS) <= MAX_BACKOFF_SECONDS
  {
    BackoffIsIdeal(base, attempt, MAX_BACKOFF_SECONDS);
    Pow2Monotone(0, attempt - 1);
    MulMonotone(base, 1, Pow2(attempt - 1));
  }
}
