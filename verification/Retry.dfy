/** Retries with equal jitter over capped exponential backoff, in exact real arithmetic. */
module Retry {
  import opened Wrappers

  function Pow2(n: nat): (r: real)
    ensures r >= 1.0
  {
    if n == 0 then 1.0 else 2.0 * Pow2(n - 1)
  }

  datatype RetryPolicy = RetryPolicy(maxAttempts: int, attemptTimeout: real, baseDelay: real, maxDelay: real) {
    /** What the constructor checks. */
    predicate Valid() {
      maxAttempts >= 1 && attemptTimeout > 0.0
    }

    predicate DelaysNonNegative() {
      baseDelay >= 0.0 && maxDelay >= 0.0
    }

    /** The capped doubling after the failed attempt (1-based). */
    function Exponential(attempt: nat): real
      requires attempt >= 1
    {
      var doubled := baseDelay * Pow2(attempt - 1);
      if doubled <= maxDelay then doubled else maxDelay
    }

    function BackoffDelay(attempt: nat, jitter: real): real
      requires attempt >= 1
    {
      Exponential(attempt) / 2.0 + jitter * Exponential(attempt) / 2.0
    }

    /** The pauses after the attempts `from`, ..., maxAttempts - 1 at their longest. */
    function PausesFrom(from: nat): real
      requires from >= 1
      decreases maxAttempts - from
    {
      if from >= maxAttempts then 0.0 else Exponential(from) + PausesFrom(from + 1)
    }

    function WorstCaseSeconds(): real {
      maxAttempts as real * attemptTimeout + PausesFrom(1)
    }
  }

  datatype PolicyError = TooFewAttempts | TimeoutNotPositive

  /** The constructor's checks, in their order. */
  function Create(maxAttempts: int, attemptTimeout: real, baseDelay: real, maxDelay: real): Result<RetryPolicy, PolicyError> {
    if maxAttempts < 1 then Err(TooFewAttempts)
    else if attemptTimeout <= 0.0 then Err(TimeoutNotPositive)
    else Ok(RetryPolicy(maxAttempts, attemptTimeout, baseDelay, maxDelay))
  }

  /** Every policy that is constructed can be used, and every usable policy can be constructed. */
  lemma CreatedIffValid(p: RetryPolicy)
    ensures p.Valid() <==> Create(p.maxAttempts, p.attemptTimeout, p.baseDelay, p.maxDelay) == Ok(p)
    ensures p.Valid() <==> p.maxAttempts >= 1 && p.attemptTimeout > 0.0
  {
  }

  /** A value, an error that is retried, or any other error. */
  datatype Outcome<+T> = Success(value: T) | Transient | Permanent

  /** One call of the operation: how it would end, and after how many seconds. */
  datatype Attempt<+T> = Attempt(outcome: Outcome<T>, seconds: real)

  /** wait_for cuts an attempt at the timeout, and a timeout is retried. */
  function Observed<T>(p: RetryPolicy, a: Attempt<T>): Attempt<T> {
    if a.seconds > p.attemptTimeout then Attempt(Transient, p.attemptTimeout) else a
  }

  datatype Ending<+T> = Returned(value: T) | Raised | Exhausted

  /** How a call ended, how often it called the operation, and the time it slept and spent in all. */
  datatype Report<+T> = Report(ending: Ending<T>, calls: nat, slept: real, spent: real)

  /** The attempts from number `k` on. */
  function From<T>(p: RetryPolicy, op: nat -> Attempt<T>, rand: nat -> real, k: nat): Report<T>
    requires 1 <= k <= p.maxAttempts
    decreases p.maxAttempts - k
  {
    var a := Observed(p, op(k));
    match a.outcome
    case Success(value) => Report(Returned(value), 1, 0.0, a.seconds)
    case Permanent => Report(Raised, 1, 0.0, a.seconds)
    case Transient =>
      if k == p.maxAttempts then Report(Exhausted, 1, 0.0, a.seconds)
      else
        var pause, rest := p.BackoffDelay(k, rand(k)), From(p, op, rand, k + 1);
        Report(rest.ending, rest.calls + 1, pause + rest.slept, a.seconds + pause + rest.spent)
  }

  /** The loop; attempt number k takes op(k) and, if it is followed by a pause, the jitter rand(k). */
  method CallWithRetry<T>(p: RetryPolicy, op: nat -> Attempt<T>, rand: nat -> real) returns (report: Report<T>)
    requires p.Valid()
    ensures report == From(p, op, rand, 1)
  {
    var slept, spent := 0.0, 0.0;
    for attempt := 1 to p.maxAttempts + 1
      invariant attempt <= p.maxAttempts
      invariant var rest := From(p, op, rand, attempt);
                From(p, op, rand, 1) == Report(rest.ending, rest.calls + attempt - 1, slept + rest.slept, spent + rest.spent)
    {
      var a := Observed(p, op(attempt));
      spent := spent + a.seconds;
      match a.outcome {
        case Success(value) => return Report(Returned(value), attempt, slept, spent);
        case Permanent => return Report(Raised, attempt, slept, spent);
        case Transient =>
          if attempt == p.maxAttempts {
            return Report(Exhausted, attempt, slept, spent);
          }
          var pause := p.BackoffDelay(attempt, rand(attempt));
          slept, spent := slept + pause, spent + pause;
      }
    }
    assert false;
  }

  // ---------- Bounds ----------

  ghost predicate Admissible<T>(p: RetryPolicy, op: nat -> Attempt<T>, rand: nat -> real) {
    && p.Valid() && p.DelaysNonNegative()
    && (forall k: nat :: op(k).seconds >= 0.0)
    && (forall k: nat :: 0.0 <= rand(k) <= 1.0)
  }

  lemma ProductMonotone(a: real, b: real, e: real)
    requires a <= b && e >= 0.0
    ensures a * e <= b * e
  {
    assert b * e - a * e == (b - a) * e;
  }

  lemma JitterShare(jitter: real, e: real)
    requires 0.0 <= jitter <= 1.0 && e >= 0.0
    ensures 0.0 <= jitter * e <= e
  {
    ProductMonotone(0.0, jitter, e);
    ProductMonotone(jitter, 1.0, e);
  }

  lemma HalfPlusShare(e: real, share: real, half: real)
    requires 0.0 <= share <= e && half == share / 2.0
    ensures 0.0 <= e / 2.0 <= e / 2.0 + half <= e
  {
  }

  lemma ExponentialNonNegative(p: RetryPolicy, attempt: nat)
    requires attempt >= 1 && p.DelaysNonNegative()
    ensures 0.0 <= p.Exponential(attempt) <= p.maxDelay
  {
    ProductMonotone(0.0, p.baseDelay, Pow2(attempt - 1));
  }

  lemma JitterKeepsHalf(p: RetryPolicy, attempt: nat, jitter: real)
    requires attempt >= 1 && p.DelaysNonNegative() && 0.0 <= jitter <= 1.0
    ensures 0.0 <= p.Exponential(attempt) / 2.0 <= p.BackoffDelay(attempt, jitter) <= p.Exponential(attempt) <= p.maxDelay
  {
    var e := p.Exponential(attempt);
    ExponentialNonNegative(p, attempt);
    JitterShare(jitter, e);
    HalfPlusShare(e, jitter * e, jitter * e / 2.0);
  }

  function Min(a: real, b: real): real {
    if a <= b then a else b
  }

  lemma DoublePow2(n: nat, base: real)
    ensures base * Pow2(n + 1) == 2.0 * (base * Pow2(n))
  {
    assert Pow2(n + 1) == 2.0 * Pow2(n);
    assert base * (2.0 * Pow2(n)) == 2.0 * (base * Pow2(n));
  }

  /** The exponential part starts at the base delay and doubles, up to the cap. */
  lemma ExponentialDoubles(p: RetryPolicy, attempt: nat)
    requires p.DelaysNonNegative() && attempt >= 1
    ensures p.Exponential(1) == Min(p.maxDelay, p.baseDelay)
    ensures p.Exponential(attempt + 1) == Min(p.maxDelay, 2.0 * p.Exponential(attempt))
  {
    DoublePow2(attempt - 1, p.baseDelay);
    ProductMonotone(0.0, p.baseDelay, Pow2(attempt - 1));
    CappedDouble(p.baseDelay * Pow2(attempt - 1), p.maxDelay);
  }

  lemma CappedDouble(d: real, cap: real)
    requires d >= 0.0 && cap >= 0.0
    ensures Min(cap, 2.0 * d) == Min(cap, 2.0 * Min(cap, d))
  {
  }

  /** No jitter halves the pause, full jitter keeps it, and in between it is proportional. */
  lemma JitterIsProportional(p: RetryPolicy, attempt: nat, jitter: real)
    requires attempt >= 1
    ensures p.BackoffDelay(attempt, 0.0) == p.Exponential(attempt) / 2.0
    ensures p.BackoffDelay(attempt, 1.0) == p.Exponential(attempt)
    ensures p.BackoffDelay(attempt, jitter) - p.BackoffDelay(attempt, 0.0)
            == jitter * (p.BackoffDelay(attempt, 1.0) - p.BackoffDelay(attempt, 0.0))
  {
    var e := p.Exponential(attempt);
    assert jitter * e / 2.0 == jitter * (e / 2.0);
  }

  /** An attempt is retried iff it fails in a listed way or outlasts the timeout, at which it is cut. */
  lemma RetriedIff<T>(p: RetryPolicy, a: Attempt<T>)
    ensures Observed(p, a).outcome.Transient? <==> a.outcome.Transient? || a.seconds > p.attemptTimeout
    ensures Observed(p, a).seconds == Min(a.seconds, p.attemptTimeout)
    ensures !Observed(p, a).outcome.Transient? ==> Observed(p, a) == a
  {
  }

  /** The timeouts of the attempts from number `k` on. */
  ghost function TimeoutsFrom(p: RetryPolicy, k: nat): real
    decreases p.maxAttempts - k
  {
    if k > p.maxAttempts then 0.0 else p.attemptTimeout + TimeoutsFrom(p, k + 1)
  }

  lemma {:induction false} TimeoutsAddUp(p: RetryPolicy, k: nat)
    requires k <= p.maxAttempts + 1
    ensures TimeoutsFrom(p, k) == (p.maxAttempts - k + 1) as real * p.attemptTimeout
    decreases p.maxAttempts - k
  {
    if k <= p.maxAttempts {
      TimeoutsAddUp(p, k + 1);
      var left := (p.maxAttempts - k) as real;
      assert (p.maxAttempts - k + 1) as real == left + 1.0;
      assert (left + 1.0) * p.attemptTimeout == left * p.attemptTimeout + p.attemptTimeout;
    }
  }

  lemma {:induction false} TimeoutsNonNegative(p: RetryPolicy, k: nat)
    requires p.Valid()
    ensures TimeoutsFrom(p, k) >= 0.0
    decreases p.maxAttempts - k
  {
    if k <= p.maxAttempts {
      TimeoutsNonNegative(p, k + 1);
    }
  }

  lemma {:induction false} BoundsFrom<T>(p: RetryPolicy, op: nat -> Attempt<T>, rand: nat -> real, k: nat)
    requires Admissible(p, op, rand) && 1 <= k <= p.maxAttempts
    ensures var r := From(p, op, rand, k);
            && 1 <= r.calls <= p.maxAttempts - k + 1
            && 0.0 <= r.slept <= p.PausesFrom(k)
            && r.spent <= TimeoutsFrom(p, k) + p.PausesFrom(k)
            && (r.ending.Exhausted? ==> r.slept >= p.PausesFrom(k) / 2.0)
    decreases p.maxAttempts - k
  {
    assert op(k).seconds >= 0.0 && 0.0 <= rand(k) <= 1.0;
    var a := Observed(p, op(k));
    assert 0.0 <= a.seconds <= p.attemptTimeout;
    if a.outcome.Transient? && k < p.maxAttempts {
      JitterKeepsHalf(p, k, rand(k));
      BoundsFrom(p, op, rand, k + 1);
    } else {
      PausesNonNegative(p, k);
      TimeoutsNonNegative(p, k + 1);
    }
  }

  lemma {:induction false} PausesNonNegative(p: RetryPolicy, k: nat)
    requires p.DelaysNonNegative() && k >= 1
    ensures p.PausesFrom(k) >= 0.0
    decreases p.maxAttempts - k
  {
    if k < p.maxAttempts {
      JitterKeepsHalf(p, k, 0.0);
      PausesNonNegative(p, k + 1);
    }
  }

  lemma WorstCaseIsSum(p: RetryPolicy)
    requires p.Valid()
    ensures p.WorstCaseSeconds() == TimeoutsFrom(p, 1) + p.PausesFrom(1)
  {
    TimeoutsAddUp(p, 1);
  }

  /** At most maxAttempts calls and worst_case_seconds in all; giving up has slept at least half the pauses. */
  lemma RetryBounds<T>(p: RetryPolicy, op: nat -> Attempt<T>, rand: nat -> real)
    requires Admissible(p, op, rand)
    ensures var r := From(p, op, rand, 1);
            && 1 <= r.calls <= p.maxAttempts
            && r.spent <= p.WorstCaseSeconds()
            && (r.ending.Exhausted? ==> p.PausesFrom(1) / 2.0 <= r.slept <= p.PausesFrom(1))
  {
    BoundsFrom(p, op, rand, 1);
    WorstCaseIsSum(p);
  }

  /** It stops at the first attempt that is not retried, and gives up iff every attempt is. */
  lemma {:induction false} StopsAtFirstDecision<T>(p: RetryPolicy, op: nat -> Attempt<T>, rand: nat -> real, k: nat)
    requires 1 <= k <= p.maxAttempts
    ensures var r := From(p, op, rand, k);
            var last := k + r.calls - 1;
            && k <= last <= p.maxAttempts
            && (forall i: nat :: k <= i < last ==> Observed(p, op(i)).outcome.Transient?)
            && (match Observed(p, op(last)).outcome
                case Success(value) => r.ending == Returned(value)
                case Permanent => r.ending == Raised
                case Transient => r.ending == Exhausted && last == p.maxAttempts)
            && (r.ending.Exhausted? <==> forall i: nat :: k <= i <= p.maxAttempts ==> Observed(p, op(i)).outcome.Transient?)
    decreases p.maxAttempts - k
  {
    if Observed(p, op(k)).outcome.Transient? && k < p.maxAttempts {
      StopsAtFirstDecision(p, op, rand, k + 1);
    }
  }

  /** The bound is tight: it is spent in full when every attempt times out and every jitter is 1. */
  lemma {:induction false} WorstCaseIsReached<T>(p: RetryPolicy, op: nat -> Attempt<T>, rand: nat -> real, k: nat)
    requires 1 <= k <= p.maxAttempts
    requires forall i: nat :: op(i).seconds > p.attemptTimeout && rand(i) == 1.0
    ensures From(p, op, rand, k).spent == TimeoutsFrom(p, k) + p.PausesFrom(k)
    ensures k == 1 ==> From(p, op, rand, k).spent == p.WorstCaseSeconds()
    decreases p.maxAttempts - k
  {
    assert op(k).seconds > p.attemptTimeout && rand(k) == 1.0;
    TimeoutsAddUp(p, k);
    if k < p.maxAttempts {
      WorstCaseIsReached(p, op, rand, k + 1);
    }
  }
}
