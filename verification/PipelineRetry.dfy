/** backend/lexmind/pipeline/pipeline_retry.py: when a stage is tried again and after what delay.
    Seconds are exact reals. */
module PipelineRetry {
  datatype Strategy = Never | Immediate | FixedDelay | ExponentialBackoff | Custom

  function Power(x: real, n: nat): real {
    if n == 0 then 1.0 else x * Power(x, n - 1)
  }

  datatype RetryPolicy = RetryPolicy(
    strategy: Strategy,
    maxAttempts: int,
    baseDelay: real,
    maxDelay: real,
    multiplier: real)
  {
    predicate ShouldRetry(attempt: int) {
      strategy != Never && attempt < maxAttempts
    }

    function DelayFor(attempt: int): real {
      match strategy
      case Never => 0.0
      case Immediate => 0.0
      case FixedDelay => baseDelay
      case Custom => baseDelay
      case ExponentialBackoff =>
        var delay := baseDelay * Power(multiplier, if attempt >= 1 then attempt - 1 else 0);
        if delay < maxDelay then delay else maxDelay
    }

    /** The number of attempts after which a failing stage run gives up. */
    function Limit(): nat {
      if strategy == Never || maxAttempts < 1 then 1 else maxAttempts
    }

    /** The sleeps taken by a stage run of so many attempts; a delay that is not positive is not slept. */
    function Sleeps(attempts: nat): seq<real> {
      if attempts < 2 then []
      else Sleeps(attempts - 1) + if DelayFor(attempts) > 0.0 then [DelayFor(attempts)] else []
    }
  }

  function Sum(s: seq<real>): real {
    if s == [] then 0.0 else Sum(s[..|s| - 1]) + s[|s| - 1]
  }

  ghost predicate BackoffParameters(p: RetryPolicy) {
    p.strategy == ExponentialBackoff && p.baseDelay >= 0.0 && p.multiplier >= 1.0 && p.maxDelay >= 0.0
  }

  lemma ScaleUp(x: real, q: real)
    requires x >= 1.0 && q >= 0.0
    ensures x * q >= q
  {
    assert (x - 1.0) * q >= 0.0;
  }

  lemma ScaleBoth(b: real, u: real, v: real)
    requires b >= 0.0 && 0.0 <= u <= v
    ensures 0.0 <= b * u <= b * v
  {
    assert b * (v - u) >= 0.0;
  }

  lemma {:induction false} PowerAtLeastOne(x: real, n: nat)
    requires x >= 1.0
    ensures Power(x, n) >= 1.0
    ensures Power(x, n + 1) >= Power(x, n)
  {
    if n > 0 {
      PowerAtLeastOne(x, n - 1);
    }
    ScaleUp(x, Power(x, n));
  }

  /** The delay before the cap. */
  function Scaled(p: RetryPolicy, n: nat): real {
    p.baseDelay * Power(p.multiplier, n)
  }

  lemma ScaledGrows(p: RetryPolicy, n: nat)
    requires BackoffParameters(p)
    ensures 0.0 <= Scaled(p, n) <= Scaled(p, n + 1)
  {
    hide Power;
    PowerAtLeastOne(p.multiplier, n);
    ScaleBoth(p.baseDelay, Power(p.multiplier, n), Power(p.multiplier, n + 1));
  }

  lemma DelayIsCapped(p: RetryPolicy, a: int)
    requires BackoffParameters(p)
    ensures
      var scaled := Scaled(p, if a >= 1 then a - 1 else 0);
      p.DelayFor(a) == if scaled < p.maxDelay then scaled else p.maxDelay
  {
    hide Power;
  }

  lemma DelayGrows(p: RetryPolicy, a: int)
    requires BackoffParameters(p)
    ensures 0.0 <= p.DelayFor(a) <= p.DelayFor(a + 1) <= p.maxDelay
  {
    hide Scaled, Power, RetryPolicy.DelayFor;
    DelayIsCapped(p, a);
    DelayIsCapped(p, a + 1);
    ScaledGrows(p, if a >= 1 then a - 1 else 0);
  }

  lemma {:induction false} PowerPositive(x: real, n: nat)
    requires x > 0.0
    ensures Power(x, n) > 0.0
  {
    if n > 0 {
      PowerPositive(x, n - 1);
      ProductPositive(x, Power(x, n - 1));
    }
  }

  lemma ProductPositive(x: real, y: real)
    requires x > 0.0 && y > 0.0
    ensures x * y > 0.0
  {
  }

  lemma DelayPositive(p: RetryPolicy, attempt: nat)
    requires attempt >= 1 && p.strategy == ExponentialBackoff
    requires p.baseDelay > 0.0 && p.multiplier > 0.0 && p.maxDelay > 0.0
    ensures
      var scaled := p.baseDelay * Power(p.multiplier, attempt - 1);
      0.0 < p.DelayFor(attempt) == if scaled < p.maxDelay then scaled else p.maxDelay
  {
    hide Power;
    PowerPositive(p.multiplier, attempt - 1);
    ProductPositive(p.baseDelay, Power(p.multiplier, attempt - 1));
  }

  /** The sleeps before retries: none under `Never` and `Immediate`, the base delay each time under `FixedDelay` and
      `Custom`. */
  lemma {:induction false} ConstantSleeps(p: RetryPolicy, attempts: nat)
    requires attempts >= 1
    ensures p.strategy in {Never, Immediate} || (p.strategy in {FixedDelay, Custom} && p.baseDelay <= 0.0) ==>
      p.Sleeps(attempts) == []
    ensures p.strategy in {FixedDelay, Custom} && p.baseDelay > 0.0 ==>
      |p.Sleeps(attempts)| == attempts - 1 && forall i :: 0 <= i < attempts - 1 ==> p.Sleeps(attempts)[i] == p.baseDelay
    decreases attempts
  {
    if attempts >= 2 {
      ConstantSleeps(p, attempts - 1);
    }
  }

  /** Under exponential backoff the i-th retry waits for the base delay times the i-th power of the multiplier, at most
      the cap. */
  lemma {:induction false} BackoffSleeps(p: RetryPolicy, attempts: nat)
    requires attempts >= 1 && p.strategy == ExponentialBackoff
    requires p.baseDelay > 0.0 && p.multiplier > 0.0 && p.maxDelay > 0.0
    ensures |p.Sleeps(attempts)| == attempts - 1
    ensures forall i :: 0 <= i < attempts - 1 ==>
      var scaled := p.baseDelay * Power(p.multiplier, i + 1);
      p.Sleeps(attempts)[i] == if scaled < p.maxDelay then scaled else p.maxDelay
    decreases attempts
  {
    hide Power, RetryPolicy.DelayFor;
    if attempts >= 2 {
      BackoffSleeps(p, attempts - 1);
      DelayPositive(p, attempts);
    }
  }

  /** Under exponential backoff the sleeps never decrease. */
  lemma {:induction false} BackoffNeverDecreases(p: RetryPolicy, attempts: nat)
    requires BackoffParameters(p) && attempts >= 1
    ensures forall i, j :: 0 <= i < j < |p.Sleeps(attempts)| ==> p.Sleeps(attempts)[i] <= p.Sleeps(attempts)[j]
    ensures forall i :: 0 <= i < |p.Sleeps(attempts)| ==> p.Sleeps(attempts)[i] <= p.DelayFor(attempts)
    decreases attempts
  {
    hide Power, RetryPolicy.DelayFor;
    if attempts >= 2 {
      BackoffNeverDecreases(p, attempts - 1);
      DelayGrows(p, attempts - 1);
    }
  }

  lemma SleepsNext(p: RetryPolicy, attempts: nat)
    requires attempts >= 2
    ensures
      var d := p.DelayFor(attempts);
      Sum(p.Sleeps(attempts)) == Sum(p.Sleeps(attempts - 1)) + if d > 0.0 then d else 0.0
  {
    hide RetryPolicy.DelayFor;
    var before, all := p.Sleeps(attempts - 1), p.Sleeps(attempts);
    if p.DelayFor(attempts) > 0.0 {
      assert all[..|all| - 1] == before;
    } else {
      assert all == before;
    }
  }

  function Caps(n: nat, cap: real): real {
    n as real * cap
  }

  lemma OneMoreCap(n: nat, cap: real)
    ensures Caps(0, cap) == 0.0 && Caps(n + 1, cap) == Caps(n, cap) + cap
  {
    assert (n + 1) as real == n as real + 1.0;
  }

  lemma {:induction false} BackoffWithinCaps(p: RetryPolicy, attempts: nat)
    requires BackoffParameters(p) && attempts >= 1
    ensures 0.0 <= Sum(p.Sleeps(attempts)) <= Caps(attempts - 1, p.maxDelay)
    decreases attempts
  {
    hide RetryPolicy.DelayFor, Caps;
    if attempts == 1 {
      OneMoreCap(0, p.maxDelay);
    } else {
      hide RetryPolicy.Sleeps, Sum;
      BackoffWithinCaps(p, attempts - 1);
      DelayGrows(p, attempts - 1);
      SleepsNext(p, attempts);
      OneMoreCap(attempts - 2, p.maxDelay);
    }
  }

  /** Under exponential backoff a stage run of so many attempts sleeps at most one cap per retry. */
  lemma BackoffBounded(p: RetryPolicy, attempts: nat)
    requires BackoffParameters(p) && attempts >= 1
    ensures 0.0 <= Sum(p.Sleeps(attempts)) <= (attempts - 1) as real * p.maxDelay
  {
    BackoffWithinCaps(p, attempts);
  }
}
