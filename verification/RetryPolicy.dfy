/** `RetryPolicy` of `src/retry/mod.rs`. Durations are natural numbers of nanoseconds. */
module RetryPolicy {
  import opened Wire
  import opened Gf2

  const SECOND: nat := 1_000_000_000
  const DURATION_MAX: nat := U64_MAX * SECOND + (SECOND - 1)

  datatype Classification = Never | Retryable | Throttled

  datatype Policy = Policy(maxAttempts: nat, baseDelay: nat, maxDelay: nat, maxElapsed: nat)

  /** What `RetryPolicy::new` accepts, in the ranges of `u32` and `Duration`. */
  predicate ValidPolicy(p: Policy) {
    && 1 <= p.maxAttempts < 0x1_0000_0000
    && 0 < p.baseDelay <= p.maxDelay <= DURATION_MAX
    && 0 < p.maxElapsed <= DURATION_MAX
  }

  function Base(p: Policy, classification: Classification): nat {
    if classification == Throttled && p.baseDelay < SECOND then SECOND else p.baseDelay
  }

  /** `delay_ceiling`: a saturating product, capped. */
  function DelayCeiling(p: Policy, classification: Classification, attempts: nat): nat {
    var exponent := Min(if attempts > 0 then attempts - 1 else 0, 31);
    Min(Min(Pow2(exponent) * Base(p, classification), DURATION_MAX), p.maxDelay)
  }

  /** The largest delay the random draw may return. */
  function JitterCeiling(p: Policy, classification: Classification, attempts: nat, remaining: nat): nat {
    Min(Min(DelayCeiling(p, classification, attempts), remaining), U64_MAX)
  }

  /** `delay_for`, the draw being `jitter` brought into range. */
  function DelayFor(p: Policy, classification: Classification, attempts: nat, elapsed: nat,
                    retryAfter: Option<nat>, jitter: nat): Option<nat>
  {
    if attempts == 0 || attempts >= p.maxAttempts || elapsed >= p.maxElapsed || classification == Never then None
    else
      var remaining := p.maxElapsed - elapsed;
      match retryAfter
      case Some(delay) => if delay <= remaining then Some(delay) else None
      case None => Some(Min(jitter, JitterCeiling(p, classification, attempts, remaining)))
  }

  /** Ceilings never shrink from one attempt to the next and never exceed `max_delay`. */
  lemma CeilingMonotone(p: Policy, classification: Classification, m: nat, n: nat)
    requires ValidPolicy(p) && m <= n
    ensures p.baseDelay <= DelayCeiling(p, classification, m) <= DelayCeiling(p, classification, n) <= p.maxDelay
  {
    hide Pow2;
    var i, j := Min(if m > 0 then m - 1 else 0, 31), Min(if n > 0 then n - 1 else 0, 31);
    Pow2Monotone(i, j);
    var base := Base(p, classification);
    MulMonotone(1, Pow2(i), base);
    MulMonotone(Pow2(i), Pow2(j), base);
  }

  /** Within the loop's guards, a delay is refused only for a Retry-After beyond the budget. */
  lemma DelayForMeaning(p: Policy, classification: Classification, attempts: nat, elapsed: nat,
                        retryAfter: Option<nat>, jitter: nat)
    requires 0 < attempts < p.maxAttempts && elapsed < p.maxElapsed && classification != Never
    ensures var d := DelayFor(p, classification, attempts, elapsed, retryAfter, jitter);
            && (d.None? <==> retryAfter.Some? && elapsed + retryAfter.value > p.maxElapsed)
            && (d.Some? ==> elapsed + d.value <= p.maxElapsed)
            && (d.Some? && retryAfter.Some? ==> d == retryAfter)
            && (d.Some? && retryAfter.None? ==> d.value <= DelayCeiling(p, classification, attempts))
  {
  }

  /**
    The ceiling starts at the base delay, which is at least one second for throttling, doubles with
    every further attempt up to the 32nd, and never exceeds `max_delay`.
   */
  lemma CeilingDoubles(p: Policy, classification: Classification, n: nat)
    requires ValidPolicy(p) && n >= 1
    ensures DelayCeiling(p, classification, 1) ==
            Min(if classification == Throttled then Max(p.baseDelay, 1_000_000_000) else p.baseDelay, p.maxDelay)
    ensures DelayCeiling(p, classification, 0) == DelayCeiling(p, classification, 1)
    ensures DelayCeiling(p, classification, n + 1) ==
            if n < 32 then Min(2 * DelayCeiling(p, classification, n), p.maxDelay)
            else DelayCeiling(p, classification, n)
  {
    hide Pow2;
    var base := Base(p, classification);
    FirstPower(base);
    if n < 32 {
      NextPower(n - 1, base);
      CapProduct(Pow2(n - 1) * base, DURATION_MAX, p.maxDelay);
    }
  }

  lemma FirstPower(base: nat)
    ensures Pow2(0) * base == base
  {
  }

  lemma NextPower(i: nat, base: nat)
    ensures Pow2(i + 1) * base == 2 * (Pow2(i) * base)
  {
  }

  lemma CapProduct(x: nat, large: nat, cap: nat)
    requires cap <= large
    ensures Min(Min(2 * x, large), cap) == Min(2 * Min(Min(x, large), cap), cap)
  {
  }

  /** Without Retry-After every delay from zero to the ceiling and the remaining budget can be drawn. */
  lemma EveryDelayCanBeDrawn(p: Policy, classification: Classification, attempts: nat, elapsed: nat, delay: nat)
    requires 0 < attempts < p.maxAttempts && elapsed < p.maxElapsed && classification != Never
    requires delay <= DelayCeiling(p, classification, attempts) && elapsed + delay <= p.maxElapsed
    requires delay < 0x1_0000_0000_0000_0000
    ensures DelayFor(p, classification, attempts, elapsed, None, delay) == Some(delay)
  {
  }

  /** Outside the loop's guards there is no delay at all. */
  lemma NoDelayWithoutRetry(p: Policy, classification: Classification, attempts: nat, elapsed: nat,
                            retryAfter: Option<nat>, jitter: nat)
    requires attempts == 0 || attempts >= p.maxAttempts || elapsed >= p.maxElapsed || classification == Never
    ensures DelayFor(p, classification, attempts, elapsed, retryAfter, jitter) == None
  {
  }

  /** What `RetryPolicy::new` accepts, among values of its parameter types. */
  function NewPolicy(maxAttempts: nat, baseDelay: nat, maxDelay: nat, maxElapsed: nat): (r: Option<Policy>)
    requires maxAttempts < 0x1_0000_0000 && baseDelay <= DURATION_MAX && maxDelay <= DURATION_MAX
    requires maxElapsed <= DURATION_MAX
    ensures r.Some? ==> ValidPolicy(r.value) && r.value == Policy(maxAttempts, baseDelay, maxDelay, maxElapsed)
    ensures r.None? <==> maxAttempts == 0 || baseDelay == 0 || maxDelay < baseDelay || maxElapsed == 0
  {
    var p := Policy(maxAttempts, baseDelay, maxDelay, maxElapsed);
    if ValidPolicy(p) then Some(p) else None
  }
}
