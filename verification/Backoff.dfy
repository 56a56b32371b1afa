/** The exponential backoff of src/reliability.rs:41-48. */
module Backoff {
  import opened Domain

  const U32_MAX: int := 0xFFFF_FFFF
  const TWO_TO_32: int := 0x1_0000_0000
  /** `Duration::MAX` in nanoseconds. */
  const MAX_DURATION: int := U64_MAX * 1_000_000_000 + 999_999_999

  type u32 = x: int | 0 <= x <= U32_MAX
  type Duration = x: int | 0 <= x <= MAX_DURATION

  datatype RetryPolicy = RetryPolicy(
    maxAttempts: nat, initialBackoff: Duration, backoffMultiplier: u32, maxBackoff: Duration)

  function Min(a: int, b: int): int {
    if a <= b then a else b
  }

  function Pow(b: nat, e: nat): nat {
    if e == 0 then 1 else b * Pow(b, e - 1)
  }

  function SaturatingPow(b: u32, e: nat): u32 {
    if Pow(b, e) <= U32_MAX then Pow(b, e) else U32_MAX
  }

  function SaturatingScale(d: Duration, factor: u32): Duration {
    var product: int := (d as int) * (factor as int);
    if 0 <= product <= MAX_DURATION then product else MAX_DURATION
  }

  function Growth(p: RetryPolicy): u32 {
    if p.backoffMultiplier < 1 then 1 else p.backoffMultiplier
  }

  function MaxAttempts(p: RetryPolicy): nat {
    if p.maxAttempts < 1 then 1 else p.maxAttempts
  }

  /** The retry index is a usize cut to 32 bits before the power is taken. */
  function BackoffForRetry(p: RetryPolicy, retryIndex: nat): Duration {
    var candidate := SaturatingScale(p.initialBackoff, SaturatingPow(Growth(p), retryIndex % TWO_TO_32));
    if candidate <= p.maxBackoff then candidate else p.maxBackoff
  }

  lemma {:induction false} PowIncreases(b: nat, i: nat, j: nat)
    requires b >= 1 && i <= j
    ensures 1 <= Pow(b, i) <= Pow(b, j)
  {
    if j == 0 {
    } else if i == j {
      PowIncreases(b, i - 1, j - 1);
      Scale(b, 1, Pow(b, i - 1));
    } else {
      PowIncreases(b, i, j - 1);
      Scale(1, b, Pow(b, j - 1));
    }
  }

  lemma Scale(a: nat, b: nat, n: nat)
    ensures a <= b ==> a * n <= b * n
    ensures a >= 1 && n >= 1 ==> a * n >= 1
  {
    if a <= b {
      assert (b - a) * n >= 0;
    }
  }

  lemma ScaleUp(d: nat, a: nat, b: nat)
    requires a <= b
    ensures 0 <= d * a <= d * b
  {
    assert d * (b - a) >= 0;
  }

  /** Both intermediate saturations vanish behind the final cap. */
  lemma BackoffLaw(p: RetryPolicy, k: nat)
    requires k < TWO_TO_32
    ensures
      var m: nat := if p.backoffMultiplier == 0 then 1 else p.backoffMultiplier;
      BackoffForRetry(p, k) as int
      == Min((p.initialBackoff as int) * Min(Pow(m, k), U32_MAX), p.maxBackoff)
  {
    hide Pow, SaturatingScale, Min;
    PowIncreases(Growth(p), 0, k);
    SmallIndex(k);
    SaturatingPowIsMin(Growth(p), k);
    CapIsMin(SaturatingScale(p.initialBackoff, SaturatingPow(Growth(p), k)), p.maxBackoff);
    ScaleThenCap(p.initialBackoff, SaturatingPow(Growth(p), k), p.maxBackoff);
  }

  lemma SmallIndex(k: nat)
    requires k < TWO_TO_32
    ensures k % TWO_TO_32 == k
  {
  }

  lemma SaturatingPowIsMin(b: u32, k: nat)
    ensures SaturatingPow(b, k) as int == Min(Pow(b, k), U32_MAX)
  {
  }

  lemma CapIsMin(d: Duration, cap: Duration)
    ensures (if d <= cap then d else cap) as int == Min(d, cap)
  {
  }

  lemma ScaleThenCap(d: Duration, factor: u32, cap: Duration)
    ensures Min(SaturatingScale(d, factor), cap) == Min((d as int) * (factor as int), cap)
  {
    ScaleUp(d, 0, factor);
  }

  /** Retries never wait less than earlier ones, up to 2^32 retries. */
  lemma BackoffIncreases(p: RetryPolicy, i: nat, j: nat)
    requires i <= j < TWO_TO_32
    ensures BackoffForRetry(p, i) <= BackoffForRetry(p, j)
  {
    BackoffLaw(p, i);
    BackoffLaw(p, j);
    PowIncreases(Growth(p), i, j);
    ScaleUp(p.initialBackoff, Min(Pow(Growth(p), i), U32_MAX), Min(Pow(Growth(p), j), U32_MAX));
  }

  /** At 2^32 retries the index wraps and the wait falls back to the first one: the sequence
      of n + 1 waits is non-decreasing for every policy exactly when n is below 2^32. */
  lemma BackoffOrderIsExact(n: nat)
    ensures (forall p: RetryPolicy, i: nat, j: nat :: i <= j <= n ==> BackoffForRetry(p, i) <= BackoffForRetry(p, j))
            <==> n < TWO_TO_32
  {
    if n < TWO_TO_32 {
      forall p: RetryPolicy, i: nat, j: nat | i <= j <= n
        ensures BackoffForRetry(p, i) <= BackoffForRetry(p, j)
      {
        BackoffIncreases(p, i, j);
      }
    } else {
      var p := RetryPolicy(0, 1, 2, MAX_DURATION);
      BackoffLaw(p, 1);
      BackoffLaw(p, 0);
      assert Pow(2, 1) == 2 * Pow(2, 0);
      assert BackoffForRetry(p, TWO_TO_32) == BackoffForRetry(p, 0) < BackoffForRetry(p, 1);
    }
  }
}
