// The retry delay policy, over the reals, and how long retries can hold a key back.

module BackoffPolicy {
  import opened Reals
  import opened Wrappers

  datatype Backoff = Backoff(base: Seconds, factor: real, maximum: Seconds, jitter: real) {
    // What the constructor accepts.
    predicate Valid() {
      factor >= 1.0 && 0.0 <= jitter <= 1.0 && base > 0.0 && maximum >= base
    }

    // The exponential delay of attempt `n`, before the cap.
    function Geometric(n: nat): Seconds
      requires n >= 1
    {
      base * Power(factor, n - 1)
    }

    // As documented: the delay before jitter.
    function Nominal(n: nat): Seconds
      requires n >= 1
    {
      Min(Geometric(n), maximum)
    }

    // As computed: a power above `largest`, the largest float, overflows and is caught.
    function Capped(attempt: nat, largest: real): Seconds
      requires attempt >= 1
    {
      var power := Power(factor, attempt - 1);
      Min(if power > largest then maximum else base * power, maximum)
    }

    // `random` is drawn from [1 - jitter, 1 + jitter].
    function Delay(attempt: int, largest: real, random: real): Option<Seconds> {
      if attempt < 1 then None
      else
        var capped := Capped(attempt, largest);
        Some(if jitter != 0.0 then capped * random else capped)
    }

    predicate Drawn(random: real) {
      1.0 - jitter <= random <= 1.0 + jitter
    }
  }

  // --------------------------------------------------------------- real arithmetic

  lemma {:induction false} PowerGrows(x: real, m: nat, n: nat)
    requires x >= 1.0 && m <= n
    ensures 1.0 <= Power(x, m) <= Power(x, n)
  {
    if m < n {
      PowerGrows(x, m, n - 1);
      Scales(1.0, x, Power(x, n - 1));
    } else if m > 0 {
      PowerGrows(x, m - 1, m - 1);
      Scales(1.0, x, Power(x, m - 1));
    }
  }

  // Bernoulli's inequality.
  lemma {:induction false} PowerAtLeast(x: real, n: nat)
    requires x >= 1.0
    ensures Power(x, n) >= 1.0 + n as real * (x - 1.0)
  {
    if n > 0 {
      PowerAtLeast(x, n - 1);
      PowerGrows(x, 0, n - 1);
      BernoulliStep(Power(x, n - 1), (n - 1) as real, x);
      assert n as real == (n - 1) as real + 1.0;
    }
  }

  lemma BernoulliStep(p: real, m: real, x: real)
    requires x >= 1.0 && p >= 1.0 && p >= 1.0 + m * (x - 1.0)
    ensures p * x >= 1.0 + (m + 1.0) * (x - 1.0)
  {
    Scales(1.0, p, x - 1.0);
    assert p * x == p + p * (x - 1.0);
  }

  lemma {:induction false} PowerOfOne(n: nat)
    ensures Power(1.0, n) == 1.0
  {
    if n > 0 {
      PowerOfOne(n - 1);
    }
  }

  // -------------------------------------------------------------------- one delay

  lemma GeometricGrows(b: Backoff, m: nat, n: nat)
    requires b.Valid() && 1 <= m <= n
    ensures b.base <= b.Geometric(m) <= b.Geometric(n)
  {
    PowerGrows(b.factor, m - 1, n - 1);
    Scales(1.0, Power(b.factor, m - 1), b.base);
    Scales(Power(b.factor, m - 1), Power(b.factor, n - 1), b.base);
  }

  // The nominal delay never shrinks, starts at `base`, follows the geometric curve up to
  // the cap, and once it has reached the cap stays there.
  lemma NominalShape(b: Backoff, m: nat, n: nat)
    requires b.Valid() && 1 <= m <= n
    ensures b.base <= b.Nominal(m) <= b.Nominal(n) <= b.maximum
    ensures b.Nominal(1) == b.base
    ensures b.Geometric(n) <= b.maximum ==> b.Nominal(m) == b.Geometric(m)
    ensures b.Nominal(m) == b.maximum ==> b.Nominal(n) == b.maximum
  {
    GeometricGrows(b, m, n);
    assert Power(b.factor, 0) == 1.0;
  }

  // The cap is reached at the latest at this attempt.
  lemma CapReachedBy(b: Backoff, n: nat)
    requires b.Valid() && n >= 1
    requires b.base * ((n - 1) as real * (b.factor - 1.0)) >= b.maximum - b.base
    ensures b.Nominal(n) == b.maximum
  {
    PowerAtLeast(b.factor, n - 1);
    var line := (n - 1) as real * (b.factor - 1.0);
    Scales(1.0 + line, Power(b.factor, n - 1), b.base);
    assert (1.0 + line) * b.base == b.base + b.base * line;
  }

  // Retries reach the maximum delay exactly when the delay grows, or starts there.
  lemma CapReached(b: Backoff)
    requires b.Valid()
    ensures (exists n: nat :: n >= 1 && b.Nominal(n) == b.maximum)
            <==> b.factor > 1.0 || b.base == b.maximum
  {
    if b.factor > 1.0 {
      var growth := b.base * (b.factor - 1.0);
      var k := EnoughSteps(growth, b.maximum - b.base);
      assert b.base * (k as real * (b.factor - 1.0)) == k as real * growth;
      CapReachedBy(b, k + 1);
    } else {
      forall n: nat | n >= 1 ensures b.Nominal(n) == b.base {
        PowerOfOne(n - 1);
      }
      assert b.Nominal(1) == b.base;
    }
  }

  lemma EnoughSteps(step: real, distance: real) returns (k: nat)
    requires step > 0.0 && distance >= 0.0
    ensures k as real * step >= distance
  {
    var q := distance / step;
    assert q >= 0.0 && q * step == distance;
    k := q.Floor + 1;
    Scales(q, k as real, step);
  }

  // The overflow branch is harmless when the cap is below `largest` bases.
  lemma CappedIsNominal(b: Backoff, n: nat, largest: real)
    requires b.Valid() && n >= 1 && b.base * largest >= b.maximum
    ensures b.Capped(n, largest) == b.Nominal(n)
  {
    var power := Power(b.factor, n - 1);
    if power > largest {
      Scales(largest, power, b.base);
      assert b.Geometric(n) >= b.maximum;
    }
  }

  // In general it agrees with the documented minimum exactly when the value that overflowed
  // is above the cap.
  lemma OverflowAgrees(b: Backoff, n: nat, largest: real)
    requires b.Valid() && n >= 1
    ensures b.Capped(n, largest) == b.Nominal(n)
            <==> Power(b.factor, n - 1) <= largest || b.Geometric(n) >= b.maximum
  {
  }

  // Within the jitter of `x`.
  predicate Near(d: Seconds, x: Seconds, jitter: real) {
    (1.0 - jitter) * x <= d <= (1.0 + jitter) * x
  }

  lemma JitterStaysNear(x: real, random: real, jitter: real)
    requires x >= 0.0 && 1.0 - jitter <= random <= 1.0 + jitter
    ensures Near(x * random, x, jitter)
  {
    Scales(1.0 - jitter, random, x);
    Scales(random, 1.0 + jitter, x);
  }

  // The computed delay is the documented one, times the random factor if there is jitter, and
  // so within the jitter of it; only attempts below one are refused.
  lemma DelayIsNominal(b: Backoff, attempt: int, largest: real, random: real)
    requires b.Valid() && b.Drawn(random)
    requires b.base * largest >= b.maximum
    ensures b.Delay(attempt, largest, random).None? <==> attempt < 1
    ensures attempt >= 1 ==>
              b.Delay(attempt, largest, random).value ==
              if b.jitter == 0.0 then b.Nominal(attempt) else b.Nominal(attempt) * random
    ensures attempt >= 1 ==>
              Near(b.Delay(attempt, largest, random).value, b.Nominal(attempt), b.jitter)
  {
    if attempt >= 1 {
      CappedIsNominal(b, attempt, largest);
      NominalShape(b, attempt, attempt);
      JitterStaysNear(b.Nominal(attempt), random, b.jitter);
    }
  }

  // --------------------------------------------------- all the delays of one message

  // A failed attempt that is retried, and its random factor.
  datatype Retry = Retry(attempt: nat, random: real)

  // The attempts at which one message is retried: each claim raises the attempt, a claim
  // without a report (a crash) skips one, and at `maxAttempts` there is no retry.
  predicate IncreasingRetries(b: Backoff, tries: seq<Retry>, maxAttempts: nat) {
    && (forall i :: 0 <= i < |tries| ==>
          1 <= tries[i].attempt < maxAttempts && b.Drawn(tries[i].random))
    && (forall i, j :: 0 <= i < j < |tries| ==> tries[i].attempt < tries[j].attempt)
  }

  function TotalDelay(b: Backoff, tries: seq<Retry>, largest: real): Seconds
    requires forall i :: 0 <= i < |tries| ==> tries[i].attempt >= 1
  {
    if tries == [] then 0.0
    else
      var n := |tries| - 1;
      TotalDelay(b, tries[..n], largest)
      + b.Delay(tries[n].attempt, largest, tries[n].random).value
  }

  function NominalTotal(b: Backoff, k: nat): Seconds {
    if k == 0 then 0.0 else NominalTotal(b, k - 1) + b.Nominal(k)
  }

  function GeometricTotal(b: Backoff, k: nat): Seconds {
    if k == 0 then 0.0 else GeometricTotal(b, k - 1) + b.Geometric(k)
  }

  lemma {:induction false} NominalTotalBounds(b: Backoff, k: nat)
    requires b.Valid()
    ensures 0.0 <= NominalTotal(b, k) <= Times(k, b.maximum)
    ensures NominalTotal(b, k) <= GeometricTotal(b, k)
  {
    if k > 0 {
      NominalTotalBounds(b, k - 1);
      NominalShape(b, k, k);
    }
  }

  // The closed form of a geometric sum with first term `base` and next power `p`.
  predicate GeometricSum(total: real, base: real, p: real, factor: real) {
    total * (factor - 1.0) == base * (p - 1.0)
  }

  lemma TelescopeStep(total: real, base: real, p: real, factor: real)
    requires GeometricSum(total, base, p, factor)
    ensures GeometricSum(total + base * p, base, p * factor, factor)
  {
  }

  lemma {:induction false} GeometricTotalIs(b: Backoff, k: nat)
    ensures GeometricSum(GeometricTotal(b, k), b.base, Power(b.factor, k), b.factor)
  {
    if k > 0 {
      GeometricTotalIs(b, k - 1);
      TelescopeStep(GeometricTotal(b, k - 1), b.base, Power(b.factor, k - 1), b.factor);
    }
  }

  // At most `1 + jitter` times `x`.
  predicate AtMost(d: Seconds, x: Seconds, jitter: real) {
    d <= (1.0 + jitter) * x
  }

  lemma AtMostSum(d: Seconds, x: Seconds, e: Seconds, y: Seconds, all: Seconds, jitter: real)
    requires AtMost(d, x, jitter) && Near(e, y, jitter) && x + y <= all && jitter >= 0.0
    ensures AtMost(d + e, all, jitter)
  {
    Scales(x + y, all, 1.0 + jitter);
    assert (1.0 + jitter) * (x + y) == (1.0 + jitter) * x + (1.0 + jitter) * y;
  }

  lemma AtMostMore(d: Seconds, x: Seconds, y: Seconds, jitter: real)
    requires AtMost(d, x, jitter) && x <= y && jitter >= 0.0
    ensures AtMost(d, y, jitter)
  {
    Scales(x, y, 1.0 + jitter);
  }

  // Increasing attempts below `limit` cost at most the delays of all the attempts.
  lemma {:induction false} TotalWithin(b: Backoff, tries: seq<Retry>, limit: nat, largest: real)
    requires b.Valid() && b.base * largest >= b.maximum
    requires limit >= 1 && IncreasingRetries(b, tries, limit)
    ensures AtMost(TotalDelay(b, tries, largest), NominalTotal(b, limit - 1), b.jitter)
    decreases |tries|
  {
    NominalTotalBounds(b, limit - 1);
    if tries == [] {
      AtMostMore(0.0, 0.0, NominalTotal(b, limit - 1), b.jitter);
    } else {
      var n := |tries| - 1;
      var a := tries[n].attempt;
      TotalWithin(b, tries[..n], a, largest);
      DelayIsNominal(b, a, largest, tries[n].random);
      NominalTotalGrows(b, a, limit - 1);
      AtMostSum(TotalDelay(b, tries[..n], largest), NominalTotal(b, a - 1),
                b.Delay(a, largest, tries[n].random).value, b.Nominal(a),
                NominalTotal(b, limit - 1), b.jitter);
    }
  }

  lemma {:induction false} NominalTotalGrows(b: Backoff, a: nat, k: nat)
    requires b.Valid() && a <= k
    ensures NominalTotal(b, a) <= NominalTotal(b, k)
  {
    if a < k {
      NominalTotalGrows(b, a, k - 1);
      NominalShape(b, k, k);
    }
  }

  // Any retries at all, in whatever order, cost at most a capped delay each.
  lemma {:induction false} TotalOfCaps(b: Backoff, tries: seq<Retry>, largest: real)
    requires b.Valid() && b.base * largest >= b.maximum
    requires forall i :: 0 <= i < |tries| ==> tries[i].attempt >= 1 && b.Drawn(tries[i].random)
    ensures AtMost(TotalDelay(b, tries, largest), Times(|tries|, b.maximum), b.jitter)
  {
    if tries != [] {
      var n := |tries| - 1;
      var a := tries[n].attempt;
      TotalOfCaps(b, tries[..n], largest);
      DelayIsNominal(b, a, largest, tries[n].random);
      NominalShape(b, a, a);
      AtMostSum(TotalDelay(b, tries[..n], largest), Times(n, b.maximum),
                b.Delay(a, largest, tries[n].random).value, b.Nominal(a),
                Times(|tries|, b.maximum), b.jitter);
    }
  }

  // However its attempts are spent, the retries of one message hold its key back for at most
  // `maxAttempts - 1` capped delays, and for at most the geometric total, jitter apart.
  lemma HeadOfLineBound(b: Backoff, tries: seq<Retry>, maxAttempts: nat, largest: real)
    requires b.Valid() && b.base * largest >= b.maximum
    requires maxAttempts >= 1 && IncreasingRetries(b, tries, maxAttempts)
    ensures AtMost(TotalDelay(b, tries, largest), (maxAttempts - 1) as real * b.maximum, b.jitter)
    ensures AtMost(TotalDelay(b, tries, largest), GeometricTotal(b, maxAttempts - 1), b.jitter)
  {
    var total, nominal := TotalDelay(b, tries, largest), NominalTotal(b, maxAttempts - 1);
    TotalWithin(b, tries, maxAttempts, largest);
    NominalTotalBounds(b, maxAttempts - 1);
    TimesIs(maxAttempts - 1, b.maximum);
    AtMostMore(total, nominal, (maxAttempts - 1) as real * b.maximum, b.jitter);
    AtMostMore(total, nominal, GeometricTotal(b, maxAttempts - 1), b.jitter);
  }
}
