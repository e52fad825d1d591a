/**
  What each thing that can happen does to a run, said in terms of the answer, the clock and the limits
  of the configuration, and proved of every step of every run.
 */
module RetryRules {
  import opened Wire
  import opened Endpoint
  import opened RegionRedirect
  import opened RetryPolicy
  import opened RetryQuota
  import opened RetryLoop

  // ----- answers --------------------------------------------------------------------------

  /** The last moment at which the head of an answer still counts. */
  function HeadLimit(c: Config, sent: nat): nat {
    Min(sent + c.attemptTimeout, c.deadline)
  }

  predicate SucceedsInTime(c: Config, r: Run, a: Action) {
    a.Answers? && a.answer == Success && a.heard <= HeadLimit(c, r.now) && a.read <= c.deadline
  }

  /** A redirect that may be followed: in time, repeatable, within the policy, and to a known AWS service. */
  predicate RedirectsInTime(c: Config, r: Run, a: Action) {
    && a.Answers? && a.answer.Redirect? && a.heard <= HeadLimit(c, r.now)
    && c.body != OneShot && r.attempts < c.policy.maxAttempts && a.heard - c.started < c.policy.maxElapsed
    && RedirectedAuthority(c.route.endpoint.scheme, c.route.endpoint.authority, a.answer.region).Some?
  }

  function NewAuthority(c: Config, region: Text): Text
    requires RedirectedAuthority(c.route.endpoint.scheme, c.route.endpoint.authority, region).Some?
  {
    var service := RedirectedAuthority(c.route.endpoint.scheme, c.route.endpoint.authority, region).value;
    if c.route.style == VirtualHosted then c.route.bucket + ['.' as int] + service else service
  }

  /** Success: the response, its event, and the credit of the last retry or of one token. */
  ghost predicate SuccessRule(c: Config, r: Run, tokens: nat, a: Action, t: Run, left: nat) {
    SucceedsInTime(c, r, a) ==>
      var credit := if r.lastRetryCost.Some? then r.lastRetryCost.value else 1;
      && t == r.(pc := Done(Succeeded), now := a.read, events := r.events + [AttemptSucceeded(r.attempts)],
                 credit := credit)
      && left == Min(tokens + credit, 500)
  }

  ghost predicate RedirectRule(c: Config, r: Run, tokens: nat, a: Action, t: Run, left: nat) {
    RedirectsInTime(c, r, a) ==>
      && left == tokens
      && match WithAuthority(c.route.parsers, r.target, NewAuthority(c, a.answer.region))
         case Err(_) => t == r.(pc := Done(Abandoned(AuthorityInvalid)), now := a.heard)
         case Ok(target) =>
           t == r.(pc := LoopHead, now := a.heard, target := target, region := a.answer.region, redirected := true,
                   events := r.events + [RegionRedirected(r.attempts)])
  }

  /** How an attempt that brought neither is judged, and when: late heads and late bodies are timeouts. */
  ghost predicate FailureRule(c: Config, r: Run, tokens: nat, a: Action, t: Run, left: nat)
    requires a.Answers?
  {
    !SucceedsInTime(c, r, a) && !RedirectsInTime(c, r, a) ==>
      if a.heard > HeadLimit(c, r.now) then
        Decided(c, r.(now := HeadLimit(c, r.now)), tokens, Retryable, None, a.failure.jitter, t, left)
      else if a.read > c.deadline then
        Decided(c, r.(now := c.deadline), tokens, Retryable, a.failure.retryAfter, a.failure.jitter, t, left)
      else
        Decided(c, r.(now := a.read), tokens, a.failure.classification, a.failure.retryAfter, a.failure.jitter, t, left)
  }

  /** The delay that a draw gives, once Retry-After does not decide it. */
  function Drawn(c: Config, attempts: nat, now: nat, cls: Classification, jitter: nat): nat {
    var budget := if c.started + c.policy.maxElapsed > now then c.started + c.policy.maxElapsed - now else 0;
    Min(Min(jitter, DelayCeiling(c.policy, cls, attempts)), Min(budget, 0xFFFF_FFFF_FFFF_FFFF))
  }

  /**
    A failed attempt at time r.now. Each stop reason is given exactly when it applies and none before it
    does; a retry is scheduled exactly when nothing forbids it, and pays 5 or 14 tokens.
   */
  ghost predicate Decided(c: Config, r: Run, tokens: nat, cls: Classification, after: Option<nat>, jitter: nat,
                          t: Run, left: nat)
  {
    var n, limit := r.attempts, c.started + c.policy.maxElapsed;
    var delay := if after.Some? then after.value else Drawn(c, n, r.now, cls, jitter);
    var cost := if cls == Throttled then 5 else 14;
    var repeatable := c.body != OneShot && cls != Never;
    var within := repeatable && n < c.policy.maxAttempts && r.now < limit && r.now + delay <= limit;
    && (t.pc == Done(Failed(n, NonReplayable)) <==> c.body == OneShot)
    && (t.pc == Done(Failed(n, NonRetryable)) <==> c.body != OneShot && cls == Never)
    && (t.pc == Done(Failed(n, AttemptsExhausted)) <==> repeatable && n >= c.policy.maxAttempts)
    && (t.pc == Done(Failed(n, ElapsedLimit)) <==>
          repeatable && n < c.policy.maxAttempts && (r.now >= limit || r.now + delay > limit))
    && (t.pc == Done(Failed(n, Deadline)) <==> within && r.now + delay >= c.deadline)
    && (t.pc == Done(Failed(n, QuotaEmpty)) <==> within && r.now + delay < c.deadline && tokens < cost)
    && (t.pc == Sleeping(r.now + delay) <==> within && r.now + delay < c.deadline && tokens >= cost)
    && (if t.pc.Sleeping? then
          && left == tokens - cost
          && t == r.(pc := t.pc, permit := Some(cost), acquired := r.acquired + 1,
                     events := r.events + [RetryScheduled(n, delay)])
        else left == tokens && t == r.(pc := t.pc, events := r.events + [AttemptFailed(n)]))
  }

  lemma DecideExactly(c: Config, r: Run, tokens: nat, failure: Failure)
    requires ValidConfig(c) && c.started <= r.now && r.attempts > 0 && r.permit == None
    ensures var (t, left) := AfterFailure(c, r, tokens, failure);
            Decided(c, r, tokens, failure.classification, failure.retryAfter, failure.jitter, t, left)
  {
    hide DelayFor, Drawn;
    if failure.classification != Never && r.attempts < c.policy.maxAttempts && r.now < c.started + c.policy.maxElapsed {
      DelayExactly(c, r.attempts, r.now, failure);
    }
  }

  lemma DelayExactly(c: Config, attempts: nat, now: nat, failure: Failure)
    requires c.started <= now < c.started + c.policy.maxElapsed && 0 < attempts < c.policy.maxAttempts
    requires failure.classification != Never
    ensures var delay := if failure.retryAfter.Some? then failure.retryAfter.value
                         else Drawn(c, attempts, now, failure.classification, failure.jitter);
            DelayFor(c.policy, failure.classification, attempts, now - c.started, failure.retryAfter, failure.jitter)
            == if now + delay <= c.started + c.policy.maxElapsed then Some(delay) else None
  {
    hide DelayCeiling;
    MinReorder(failure.jitter, DelayCeiling(c.policy, failure.classification, attempts),
               c.started + c.policy.maxElapsed - now, U64_MAX);
  }

  lemma MinReorder(j: nat, a: nat, b: nat, u: nat)
    ensures Min(j, Min(Min(a, b), u)) == Min(Min(j, a), Min(b, u))
  {
  }

  /** The rules for an answer, at the step. */
  lemma AnswerStep(c: Config, r: Run, tokens: nat, a: Action)
    requires ValidConfig(c) && Inv(c, r) && Enabled(c, r, a) && a.Answers?
    ensures var (t, left) := Apply(c, r, tokens, a);
            && SuccessRule(c, r, tokens, a, t, left)
            && RedirectRule(c, r, tokens, a, t, left)
            && FailureRule(c, r, tokens, a, t, left)
  {
    SentFacts(c, r, a);
    hide Inv, RedirectedAuthority, AfterFailure, Decided, WithAuthority, ValidRegion;
    AttemptLimitIsHeadLimit(c, r.now);
    var here := r.(now := AttemptEnd(c, r.now, a.heard, a.read));
    DecideExactly(c, here, tokens, Judged(c, r.now, a.heard, a.read, a.failure));
  }

  lemma SentFacts(c: Config, r: Run, a: Action)
    requires Inv(c, r) && Enabled(c, r, a) && a.Answers?
    ensures r.pc.Sent? && r.permit == None && r.credit == 0 && r.attempts > 0 && c.started <= r.now < c.deadline
  {
    hide WellFormed, EndsFinally, Routed;
  }

  lemma AttemptLimitIsHeadLimit(c: Config, sent: nat)
    requires sent < c.deadline
    ensures AttemptLimit(c, sent) == HeadLimit(c, sent)
  {
  }

  // ----- signing, backoff and the caller ---------------------------------------------------------

  /** Leaving the loop gives a pending permit back and changes nothing else but the time. */
  ghost predicate Left(r: Run, tokens: nat, now: nat, asked: nat, outcome: Outcome, t: Run, left: nat) {
    && (r.permit.None? ==>
          left == tokens && t == r.(pc := Done(outcome), now := now, bodyRequests := asked))
    && (r.permit.Some? ==>
          && left == Min(tokens + r.permit.value, 500)
          && t == r.(pc := Done(outcome), now := now, bodyRequests := asked, permit := None,
                     returned := r.returned + 1))
  }

  /**
    Signing: too late before, during or at its end, the run expires without an attempt. Otherwise a failure
    ends it, and a signature sends the next attempt, which commits the pending permit.
   */
  ghost predicate SigningRule(c: Config, r: Run, tokens: nat, a: Action, t: Run, left: nat)
    requires a.Signs? || a.SignFails?
  {
    if r.now >= c.deadline then Left(r, tokens, r.now, r.bodyRequests, Abandoned(Expired), t, left)
    else if a.at > c.deadline then Left(r, tokens, c.deadline, r.bodyRequests, Abandoned(Expired), t, left)
    else if a.SignFails? then Left(r, tokens, a.at, r.bodyRequests, Abandoned(SigningFailed), t, left)
    else if a.at == c.deadline then Left(r, tokens, a.at, r.bodyRequests + 1, Abandoned(Expired), t, left)
    else
      && left == tokens
      && t == r.(pc := Sent, now := a.at, bodyRequests := r.bodyRequests + 1, attempts := r.attempts + 1,
                 events := r.events + [AttemptStarted(r.attempts + 1)], permit := None,
                 lastRetryCost := t.lastRetryCost, committed := t.committed, committedCost := t.committedCost)
      && (r.permit.None? ==>
            t.lastRetryCost == r.lastRetryCost && t.committed == r.committed && t.committedCost == r.committedCost)
      && (r.permit.Some? ==>
            && t.lastRetryCost == r.permit && t.committed == r.committed + 1
            && t.committedCost == r.committedCost + r.permit.value)
  }

  lemma SigningStep(c: Config, r: Run, tokens: nat, a: Action)
    requires ValidConfig(c) && Inv(c, r) && Enabled(c, r, a) && (a.Signs? || a.SignFails?)
    ensures SigningRule(c, r, tokens, a, Apply(c, r, tokens, a).0, Apply(c, r, tokens, a).1)
  {
    hide WellFormed, EndsFinally, Routed, FollowsRedirect, FollowRedirect, EndAttempt;
  }

  /** A backoff lasts exactly as long as it was meant to; a caller who goes away takes nothing along. */
  ghost predicate WaitingRule(r: Run, tokens: nat, a: Action, t: Run, left: nat)
    requires a.Drops? || (a.Wakes? && r.pc.Sleeping?)
  {
    if a.Wakes? then left == tokens && t == r.(pc := LoopHead, now := r.pc.until)
    else Left(r, tokens, r.now, r.bodyRequests, Dropped, t, left)
  }

  lemma WaitingStep(c: Config, r: Run, tokens: nat, a: Action)
    requires c.started <= r.now && Enabled(c, r, a) && (a.Drops? || a.Wakes?)
    ensures WaitingRule(r, tokens, a, Apply(c, r, tokens, a).0, Apply(c, r, tokens, a).1)
  {
    hide FollowsRedirect, FollowRedirect, EndAttempt;
  }

  // ----- every step of every run -----------------------------------------------------------------------

  /** What a step from r to t, leaving the bucket at `left`, must be. */
  ghost predicate Rules(c: Config, r: Run, tokens: nat, a: Action, t: Run, left: nat) {
    match a
    case Signs(_) => r.pc == LoopHead && SigningRule(c, r, tokens, a, t, left)
    case SignFails(_) => r.pc == LoopHead && SigningRule(c, r, tokens, a, t, left)
    case Answers(_, _, _, _) =>
      && r.pc == Sent
      && SuccessRule(c, r, tokens, a, t, left) && RedirectRule(c, r, tokens, a, t, left)
      && FailureRule(c, r, tokens, a, t, left)
    case Wakes => r.pc.Sleeping? && WaitingRule(r, tokens, a, t, left)
    case Drops => WaitingRule(r, tokens, a, t, left)
  }

  /** Every step of every run follows the rules, whatever the bucket holds when it is taken. */
  lemma {:induction false} EveryStepFollowsTheRules(c: Config, steps: seq<Step>, last: Step)
    requires ValidConfig(c) && Exec(c, steps).Some? && Exec(c, steps + [last]).Some?
    ensures var r := Exec(c, steps).value;
            && c.started <= r.now && Enabled(c, r, last.action)
            && Rules(c, r, last.tokens, last.action, Exec(c, steps + [last]).value,
                     Apply(c, r, last.tokens, last.action).1)
  {
    hide Exec, Inv, Apply, SigningRule, SuccessRule, RedirectRule, FailureRule, WaitingRule;
    ExecSnoc(c, steps, last);
    RunKeeps(c, steps);
    var r, a := Exec(c, steps).value, last.action;
    match a
    case Signs(_) => SigningStep(c, r, last.tokens, a);
    case SignFails(_) => SigningStep(c, r, last.tokens, a);
    case Answers(_, _, _, _) => AnswerStep(c, r, last.tokens, a);
    case Wakes => WaitingStep(c, r, last.tokens, a);
    case Drops => WaitingStep(c, r, last.tokens, a);
  }

  lemma {:induction false} OnlyDecided(c: Config, r: Run, tokens: nat, cls: Classification, after: Option<nat>,
                                       jitter: nat, t: Run, left: nat)
    requires Decided(c, r, tokens, cls, after, jitter, t, left) && !r.pc.Done?
    ensures t.pc != Done(Succeeded) && t.redirected == r.redirected
  {
    hide Drawn;
    var n, limit := r.attempts, c.started + c.policy.maxElapsed;
    assert t.pc.Sleeping? || t.pc.Done?;
  }

  /**
    A run succeeds exactly at a success that is heard and read in time, and is redirected exactly by a
    redirect in time whose authority is accepted; no other step does either.
   */
  lemma {:induction false} SuccessAndRedirectExactly(c: Config, steps: seq<Step>, last: Step)
    requires ValidConfig(c) && Exec(c, steps).Some? && Exec(c, steps + [last]).Some?
    ensures var r, t, a := Exec(c, steps).value, Exec(c, steps + [last]).value, last.action;
            && (t.pc == Done(Succeeded) <==> SucceedsInTime(c, r, a))
            && (t.redirected != r.redirected <==>
                  && RedirectsInTime(c, r, a)
                  && WithAuthority(c.route.parsers, r.target, NewAuthority(c, a.answer.region)).Ok?)
  {
    hide Exec, Inv, Apply, WithAuthority, RedirectedAuthority, Decided;
    EveryStepFollowsTheRules(c, steps, last);
    ExecSnoc(c, steps, last);
    RunKeeps(c, steps);
    var r, t, a := Exec(c, steps).value, Exec(c, steps + [last]).value, last.action;
    if a.Answers? {
      NotYetRedirected(c, r, a);
      var left := Apply(c, r, last.tokens, a).1;
      if !SucceedsInTime(c, r, a) && !RedirectsInTime(c, r, a) {
        if a.heard > HeadLimit(c, r.now) {
          OnlyDecided(c, r.(now := HeadLimit(c, r.now)), last.tokens, Retryable, None, a.failure.jitter, t, left);
        } else if a.read > c.deadline {
          OnlyDecided(c, r.(now := c.deadline), last.tokens, Retryable, a.failure.retryAfter, a.failure.jitter, t,
                      left);
        } else {
          OnlyDecided(c, r.(now := a.read), last.tokens, a.failure.classification, a.failure.retryAfter,
                      a.failure.jitter, t, left);
        }
      }
    }
  }

  lemma NotYetRedirected(c: Config, r: Run, a: Action)
    requires Enabled(c, r, a) && a.Answers?
    ensures !r.pc.Done? && (a.answer.Redirect? ==> !r.redirected)
  {
  }

  /** Whatever the signer, the server and the caller may do is possible when the run waits for it. */
  lemma AnythingCanHappen(c: Config, r: Run, at: nat, read: nat, failure: Failure)
    requires r.now <= at <= read
    ensures r.pc == LoopHead ==> Enabled(c, r, Signs(at)) && Enabled(c, r, SignFails(at)) && Enabled(c, r, Drops)
    ensures r.pc == Sent ==>
              && Enabled(c, r, Answers(at, read, Success, failure)) && Enabled(c, r, Drops)
              && Enabled(c, r, Answers(at, read, Refusal, failure))
              && forall region :: ValidRegion(region) && !r.redirected ==>
                   Enabled(c, r, Answers(at, read, Redirect(region), failure))
    ensures r.pc.Sleeping? ==> Enabled(c, r, Wakes) && Enabled(c, r, Drops)
  {
  }
}
