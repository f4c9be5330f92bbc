/** Facts about products and remainders that the solver does not find by itself. */
module Arithmetic {

  /** A channel count, rate or block size that was checked to be positive. */
  type pos = n: nat | 0 < n witness 1

  function Min(a: int, b: int): int {
    if a < b then a else b
  }

  function Max(a: int, b: int): int {
    if a < b then b else a
  }

  function MaxReal(a: real, b: real): real {
    if a < b then b else a
  }

  function AbsReal(x: real): real {
    if x < 0.0 then -x else x
  }

  /** A sample times a gain; by this name the products stay out of the solver's way. */
  function Gained(sample: real, gain: real): real {
    sample * gain
  }

  /** std::llround: to the nearest integer, halves away from zero. */
  function LlRound(x: real): int {
    if x >= 0.0 then (x + 0.5).Floor else -((-x + 0.5).Floor)
  }

  lemma LlRoundIsNear(x: real)
    ensures x - 0.5 <= LlRound(x) as real <= x + 0.5
    ensures x >= 0.0 ==> LlRound(x) >= 0
  {
  }

  /** n is x rounded to the nearest whole number, halves up, but at least `least`. */
  ghost predicate IsRounded(x: real, least: int, n: int) {
    n >= least && x < n as real + 0.5 && (n > least ==> n as real - 0.5 <= x)
  }

  lemma LlRoundIsRounded(x: real, least: nat)
    ensures IsRounded(x, least, Max(least, LlRound(x)))
  {
  }

  lemma RoundedIsUnique(x: real, least: int, m: int, n: int)
    requires IsRounded(x, least, m) && IsRounded(x, least, n)
    ensures m == n
  {
  }

  lemma MulMonotone(a: int, b: int, n: int)
    requires a <= b && 0 <= n
    ensures a * n <= b * n
  {
  }

  lemma MulDistributes(a: int, b: int, n: int)
    ensures (a + b) * n == a * n + b * n
    ensures (a - b) * n == a * n - b * n
  {
  }

  /** The only multiple of n strictly between -n and n is zero. */
  lemma SmallMultiple(d: int, n: int)
    requires -n < d * n < n
    ensures d == 0
  {
    if d >= 1 {
      MulMonotone(1, d, n);
    } else if d <= -1 {
      MulMonotone(d, -1, n);
    }
  }

  /** Quotient and remainder are the only way to write x as q * n + r with 0 <= r < n. */
  lemma DivModUnique(x: int, q: int, r: int, n: int)
    requires x == q * n + r && 0 <= r < n
    ensures x / n == q && x % n == r
  {
    MulDistributes(x / n, q, n);
    SmallMultiple(x / n - q, n);
  }

  /** The number of samples of `frames` frames: the product, see SamplesIsProduct. */
  function Samples(frames: nat, channels: nat): nat {
    if frames == 0 then 0 else channels + Samples(frames - 1, channels)
  }

  lemma {:induction false} SamplesIsProduct(frames: nat, channels: nat)
    ensures Samples(frames, channels) == frames * channels
  {
    if frames > 0 {
      SamplesIsProduct(frames - 1, channels);
      MulDistributes(frames, 1, channels);
    }
  }

  lemma NoSamples(channels: nat)
    ensures Samples(0, channels) == 0
  {
  }

  lemma OneFrame(channels: nat)
    ensures Samples(1, channels) == channels
  {
    assert Samples(1, channels) == channels + Samples(0, channels);
  }

  lemma {:induction false} SamplesAdd(a: nat, b: nat, channels: nat)
    ensures Samples(a + b, channels) == Samples(a, channels) + Samples(b, channels)
  {
    if b > 0 {
      SamplesAdd(a, b - 1, channels);
    }
  }

  lemma SamplesMonotone(a: nat, b: nat, channels: nat)
    requires a <= b
    ensures Samples(a, channels) <= Samples(b, channels)
    ensures a < b && channels > 0 ==> Samples(a, channels) < Samples(b, channels)
  {
    SamplesAdd(a, b - a, channels);
  }

  lemma SplitPrefix<T>(s: seq<T>, from: nat, to: nat)
    requires from <= to <= |s|
    ensures s[..to] == s[..from] + s[from..to]
  {
  }

  lemma SliceOfSlice<T>(s: seq<T>, from: nat, to: nat, a: nat, b: nat)
    requires from <= to <= |s| && a <= b <= to - from
    ensures s[from..to][a..b] == s[from + a..from + b]
  {
    forall i | 0 <= i < b - a ensures s[from..to][a..b][i] == s[from + a..from + b][i] {
    }
  }
}
