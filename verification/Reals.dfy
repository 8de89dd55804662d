// Time spans as reals, and the little arithmetic about them.

module Reals {
  type Seconds = real

  function Min(x: real, y: real): real {
    if y < x then y else x
  }

  function Power(x: real, n: nat): real {
    if n == 0 then 1.0 else Power(x, n - 1) * x
  }

  lemma Scales(x: real, y: real, factor: real)
    requires x <= y && factor >= 0.0
    ensures x * factor <= y * factor
    ensures factor * x <= factor * y
  {
  }

  // The span `x`, `k` times over: multiplication kept additive for the proofs.
  function Times(k: nat, x: real): real {
    if k == 0 then 0.0 else Times(k - 1, x) + x
  }

  lemma Distributes(x: real, t: real)
    ensures (x + 1.0) * t == x * t + t
  {
  }

  lemma {:induction false} TimesIs(k: nat, x: real)
    ensures Times(k, x) == k as real * x
  {
    if k > 0 {
      TimesIs(k - 1, x);
      Distributes((k - 1) as real, x);
      assert k as real == (k - 1) as real + 1.0;
    }
  }

  lemma {:induction false} TimesAdd(a: nat, b: nat, x: real)
    ensures Times(a + b, x) == Times(a, x) + Times(b, x)
  {
    if b > 0 {
      TimesAdd(a, b - 1, x);
    }
  }

  lemma {:induction false} TimesNonNegative(k: nat, x: real)
    requires x >= 0.0
    ensures Times(k, x) >= 0.0
  {
    if k > 0 {
      TimesNonNegative(k - 1, x);
    }
  }

  lemma TimesMore(a: nat, b: nat, x: real)
    requires a <= b && x >= 0.0
    ensures Times(a, x) <= Times(b, x)
  {
    TimesAdd(a, b - a, x);
    TimesNonNegative(b - a, x);
  }
}
