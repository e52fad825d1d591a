/**
  `send_signed_inner` of `src/client/request/execute.rs`: attempts, one region redirect, retry
  permits, backoff, the operation deadline and the event trace, as a state machine. Other runs
  share the token bucket, so between any two steps its level may change arbitrarily.
 */
module RetryLoop {
  import opened Wire
  import opened RetryPolicy
  import opened RetryQuota
  import opened Endpoint
  import opened RegionRedirect

  datatype BodyKind = NoBody | Replayable | OneShot

  /** How requests are addressed. */
  datatype Route = Route(endpoint: Url, style: Style, bucket: Text, parsers: Parsers)

  /** Times are absolute; local computation takes no time and timers are exact. */
  datatype Config = Config(
    policy: Policy,
    body: BodyKind,
    started: nat,
    deadline: nat,
    attemptTimeout: nat,
    route: Route,
    target: Url,
    region: Text)

  predicate ValidConfig(c: Config) {
    ValidPolicy(c.policy)
  }

  predicate IsReplayable(c: Config) {
    c.body != OneShot
  }

  datatype StopReason = NonReplayable | NonRetryable | AttemptsExhausted | ElapsedLimit | Deadline | QuotaEmpty

  datatype Event =
    | AttemptStarted(attempt: nat)
    | AttemptSucceeded(attempt: nat)
    | AttemptFailed(attempt: nat)
    | RetryScheduled(attempt: nat, delay: nat)
    | RegionRedirected(attempt: nat)

  /** Why a run ended without going through the retry decision. */
  datatype Cause = Expired | SigningFailed | BodySentTwice | AuthorityInvalid

  datatype Outcome =
    | Succeeded
    | Failed(attempts: nat, reason: StopReason)
    | Abandoned(cause: Cause)
    | Dropped

  datatype Pc = LoopHead | Sent | Sleeping(until: nat) | Done(outcome: Outcome)

  datatype Run = Run(
    pc: Pc,
    now: nat,
    attempts: nat,
    target: Url,
    region: Text,
    redirected: bool,
    lastRetryCost: Option<nat>,
    permit: Option<nat>,
    bodyRequests: nat,
    events: seq<Event>,
    acquired: nat,
    committed: nat,
    returned: nat,
    committedCost: nat,
    credit: nat)

  function Initial(c: Config): Run {
    Run(LoopHead, c.started, 0, c.target, c.region, false, None, None, 0, [], 0, 0, 0, 0, 0)
  }

  /** A failed attempt: its classification, any Retry-After, and the random draw. */
  datatype Failure = Failure(classification: Classification, retryAfter: Option<nat>, jitter: nat)

  /** What the server says: success, the region where the bucket is, or anything else. */
  datatype Answer = Success | Redirect(region: Text) | Refusal

  /**
    What happens next. Signing would end at `at`; the head of an answer would arrive at `heard` and
    its body at `read`; no moment is too late to name, and the timers of the code decide what counts.
    `failure` is what the answer amounts to unless it is a success or a redirect that is followed.
   */
  datatype Action =
    | SignFails(at: nat)
    | Signs(at: nat)
    | Answers(heard: nat, read: nat, answer: Answer, failure: Failure)
    | Wakes
    | Drops

  // ----- the retry decision ------------------------------------------------------------------

  datatype Decision = Stop(reason: StopReason) | Retry(delay: nat, cost: nat)

  /** Everything between a failed attempt and either the error or the sleep. */
  function Decide(c: Config, attempts: nat, now: nat, tokens: nat, failure: Failure): Decision
    requires c.started <= now
  {
    var elapsed := now - c.started;
    var policy := c.policy;
    if !IsReplayable(c) then Stop(NonReplayable)
    else if failure.classification == Never then Stop(NonRetryable)
    else if attempts >= policy.maxAttempts then Stop(AttemptsExhausted)
    else if elapsed >= policy.maxElapsed then Stop(ElapsedLimit)
    else
      match DelayFor(policy, failure.classification, attempts, elapsed, failure.retryAfter, failure.jitter)
      case None => Stop(ElapsedLimit)
      case Some(delay) =>
        if now >= c.deadline then Stop(Deadline)
        else if delay >= c.deadline - now then Stop(Deadline)
        else
          match Take(tokens, failure.classification)
          case None => Stop(QuotaEmpty)
          case Some(_) => Retry(delay, CostOf(failure.classification).value)
  }

  // ----- steps -----------------------------------------------------------------------------------

  predicate Enabled(c: Config, r: Run, a: Action) {
    match a
    case SignFails(at) => r.pc.LoopHead? && r.now <= at
    case Signs(at) => r.pc.LoopHead? && r.now <= at
    case Answers(heard, read, answer, _) =>
      r.pc.Sent? && r.now <= heard <= read && (answer.Redirect? ==> ValidRegion(answer.region) && !r.redirected)
    case Wakes => r.pc.Sleeping?
    case Drops => !r.pc.Done?
  }

  /** Leaving the loop drops a pending permit, which returns its tokens. */
  function Leave(r: Run, tokens: nat, outcome: Outcome): (Run, nat) {
    match r.permit
    case None => (r.(pc := Done(outcome)), tokens)
    case Some(cost) =>
      (r.(pc := Done(outcome), permit := None, returned := r.returned + 1), Restore(tokens, cost))
  }

  function Emit(r: Run, e: Event): Run {
    r.(events := r.events + [e])
  }

  /** The request is signed and its deadline has not passed: pay for it, announce it, send it. */
  function Send(r: Run): Run {
    var paid :=
      match r.permit
      case None => r
      case Some(cost) =>
        r.(permit := None, lastRetryCost := Some(cost), committed := r.committed + 1,
           committedCost := r.committedCost + cost);
    Emit(paid, AttemptStarted(r.attempts + 1)).(attempts := r.attempts + 1, pc := Sent)
  }

  function AfterFailure(c: Config, r: Run, tokens: nat, failure: Failure): (Run, nat)
    requires c.started <= r.now
  {
    match Decide(c, r.attempts, r.now, tokens, failure)
    case Stop(reason) => Leave(Emit(r, AttemptFailed(r.attempts)), tokens, Failed(r.attempts, reason))
    case Retry(delay, cost) =>
      (Emit(r, RetryScheduled(r.attempts, delay)).(
         pc := Sleeping(r.now + delay), permit := Some(cost), acquired := r.acquired + 1),
       if tokens >= cost then tokens - cost else 0)
  }

  /** `min(attempt_timeout, remaining)`, as a moment. */
  function AttemptLimit(c: Config, sent: nat): (limit: nat)
    ensures sent <= limit
  {
    sent + if sent < c.deadline then Min(c.attemptTimeout, c.deadline - sent) else 0
  }

  /** When an attempt sent at `sent` is over: its body is read, or one of the two timers has fired. */
  function AttemptEnd(c: Config, sent: nat, heard: nat, read: nat): (end: nat)
    requires sent <= heard <= read
    ensures sent <= end
  {
    if heard > AttemptLimit(c, sent) then AttemptLimit(c, sent)
    else if read > c.deadline then Max(heard, c.deadline)
    else read
  }

  predicate InFull(c: Config, sent: nat, heard: nat, read: nat) {
    heard <= AttemptLimit(c, sent) && read <= c.deadline
  }

  /** A timeout is retryable; one that strikes before the head of the answer has no Retry-After. */
  function Judged(c: Config, sent: nat, heard: nat, read: nat, failure: Failure): Failure {
    if heard > AttemptLimit(c, sent) then Failure(Retryable, None, failure.jitter)
    else if read > c.deadline then failure.(classification := Retryable)
    else failure
  }

  /** The authority of the service in another region, for the addressing style. */
  function RedirectAuthority(route: Route, region: Text): Option<Text> {
    match RedirectedAuthority(route.endpoint.scheme, route.endpoint.authority, region)
    case None => None
    case Some(service) =>
      Some(if route.style == PathStyle then service else route.bucket + [DOT] + service)
  }

  predicate FollowsRedirect(c: Config, r: Run, heard: nat, answer: Answer) {
    && answer.Redirect? && heard <= AttemptLimit(c, r.now)
    && RedirectAuthority(c.route, answer.region).Some?
    && IsReplayable(c) && r.attempts < c.policy.maxAttempts
    && heard < c.started + c.policy.maxElapsed
  }

  function FollowRedirect(c: Config, r: Run, tokens: nat, region: Text): (Run, nat)
    requires RedirectAuthority(c.route, region).Some?
  {
    match WithAuthority(c.route.parsers, r.target, RedirectAuthority(c.route, region).value)
    case Err(_) => Leave(r, tokens, Abandoned(AuthorityInvalid))
    case Ok(target) =>
      (Emit(r, RegionRedirected(r.attempts)).(target := target, region := region, redirected := true, pc := LoopHead),
       tokens)
  }

  /** An attempt that ends in success or goes to the retry decision. */
  function EndAttempt(c: Config, r: Run, tokens: nat, a: Action): (Run, nat)
    requires c.started <= r.now && a.Answers? && r.now <= a.heard <= a.read
  {
    var here := r.(now := AttemptEnd(c, r.now, a.heard, a.read));
    if a.answer.Success? && InFull(c, r.now, a.heard, a.read) then
      var credit := SuccessCredit(r.lastRetryCost);
      Leave(Emit(here, AttemptSucceeded(r.attempts)).(credit := r.credit + credit), Restore(tokens, credit), Succeeded)
    else AfterFailure(c, here, tokens, Judged(c, r.now, a.heard, a.read, a.failure))
  }

  function Apply(c: Config, r: Run, tokens: nat, a: Action): (Run, nat)
    requires c.started <= r.now && Enabled(c, r, a)
  {
    match a
    case SignFails(at) =>
      if r.now >= c.deadline then Leave(r, tokens, Abandoned(Expired))
      else if at > c.deadline then Leave(r.(now := c.deadline), tokens, Abandoned(Expired))
      else Leave(r.(now := at), tokens, Abandoned(SigningFailed))
    case Signs(at) =>
      if r.now >= c.deadline then Leave(r, tokens, Abandoned(Expired))
      else if at > c.deadline then Leave(r.(now := c.deadline), tokens, Abandoned(Expired))
      else if c.body == OneShot && r.bodyRequests > 0 then Leave(r.(now := at), tokens, Abandoned(BodySentTwice))
      else
        var signed := r.(now := at, bodyRequests := r.bodyRequests + 1);
        if at >= c.deadline then Leave(signed, tokens, Abandoned(Expired))
        else (Send(signed), tokens)
    case Answers(heard, _, answer, _) =>
      if FollowsRedirect(c, r, heard, answer) then FollowRedirect(c, r.(now := heard), tokens, answer.region)
      else EndAttempt(c, r, tokens, a)
    case Wakes => (r.(now := r.pc.until, pc := LoopHead), tokens)
    case Drops => Leave(r, tokens, Dropped)
  }

  /** A step together with the level the bucket had when the step was taken. */
  datatype Step = Step(tokens: nat, action: Action)

  /** The run after a sequence of steps, if each was possible in turn; other runs choose the levels. */
  function Exec(c: Config, steps: seq<Step>): Option<Run>
    requires ValidConfig(c)
  {
    if steps == [] then Some(Initial(c))
    else
      var last := steps[|steps| - 1];
      match Exec(c, steps[..|steps| - 1])
      case None => None
      case Some(r) =>
        if Enabled(c, r, last.action) && c.started <= r.now then Some(Apply(c, r, last.tokens, last.action).0) else None
  }

  // ----- the event trace ---------------------------------------------------------------------------

  predicate IsFinal(e: Event) {
    e.AttemptSucceeded? || e.AttemptFailed?
  }

  /** Starts and endings alternate, carry the same number, count up from one, and stop at a final event. */
  ghost predicate WellFormed(events: seq<Event>) {
    forall i :: 0 <= i < |events| ==>
      if i % 2 == 0 then events[i] == AttemptStarted(i / 2 + 1)
      else && !events[i].AttemptStarted? && events[i].attempt == i / 2 + 1
           && (IsFinal(events[i]) ==> i == |events| - 1)
  }

  ghost predicate EndsFinally(events: seq<Event>) {
    events != [] && IsFinal(events[|events| - 1])
  }

  // ----- the invariant ------------------------------------------------------------------------------

  function Redirections(r: Run): nat {
    if r.redirected then 1 else 0
  }

  function Pending(r: Run): nat {
    if r.permit.Some? then 1 else 0
  }

  /** The request goes where the caller said, or to the region it was redirected to; its path never changes. */
  ghost predicate Routed(c: Config, r: Run) {
    if r.redirected then
      && ValidRegion(r.region)
      && RedirectAuthority(c.route, r.region).Some?
      && r.target == c.target.(authority := RedirectAuthority(c.route, r.region).value)
    else r.target == c.target && r.region == c.region
  }

  /** Permits and costs. */
  ghost predicate Accounts(c: Config, r: Run) {
    && r.acquired == r.committed + r.returned + Pending(r)
    && (r.permit.Some? ==> r.permit.value in {TRANSIENT_COST, THROTTLING_COST})
    && (r.lastRetryCost.Some? ==> r.lastRetryCost.value in {TRANSIENT_COST, THROTTLING_COST}
                                  && r.lastRetryCost.value <= r.committedCost)
    && (r.lastRetryCost.None? <==> r.committed == 0)
    && THROTTLING_COST * r.committed <= r.committedCost <= TRANSIENT_COST * r.committed
    && (r.credit > 0 ==> r.pc == Done(Succeeded) && r.credit == SuccessCredit(r.lastRetryCost))
    && r.attempts <= c.policy.maxAttempts
    && (c.body == OneShot ==> r.bodyRequests <= 1 && r.attempts <= 1)
    && (r.attempts > 0 ==> c.started < c.deadline)
    && (r.redirected ==> IsReplayable(c))
    && 2 * r.attempts - 1 <= |r.events| <= 2 * r.attempts
    && InTime(c, r.now)
  }

  /** Not past the deadline, unless the deadline had passed when the run began. */
  predicate InTime(c: Config, now: nat) {
    c.started <= now && (now <= c.deadline || now == c.started)
  }

  /** Ready for another attempt, which is either the first or allowed by the policy and the body. */
  ghost predicate Ready(c: Config, r: Run) {
    && r.attempts == r.committed + Redirections(r) + Pending(r)
    && r.returned == 0 && r.credit == 0
    && r.attempts < c.policy.maxAttempts
    && (r.attempts > 0 ==> IsReplayable(c))
    && (c.body == OneShot ==> r.bodyRequests == 0)
    && |r.events| == 2 * r.attempts && !EndsFinally(r.events)
  }

  ghost predicate Inv(c: Config, r: Run) {
    && Accounts(c, r)
    && Routed(c, r)
    && WellFormed(r.events)
    && match r.pc
       case LoopHead => Ready(c, r)
       case Sleeping(until) =>
         Ready(c, r) && r.permit.Some? && r.now <= until < c.deadline && until <= c.started + c.policy.maxElapsed
       case Sent =>
         && r.permit == None && r.returned == 0 && r.credit == 0
         && r.attempts == r.committed + Redirections(r) + 1
         && r.now < c.deadline
         && |r.events| == 2 * r.attempts - 1
       case Done(outcome) =>
         && r.permit == None
         && r.committed + Redirections(r) <= r.attempts <= r.committed + Redirections(r) + 1
         && match outcome
            case Succeeded => r.returned == 0 && |r.events| == 2 * r.attempts
                              && EndsFinally(r.events) && r.events[|r.events| - 1].AttemptSucceeded?
            case Failed(attempts, _) => r.returned == 0 && attempts == r.attempts && |r.events| == 2 * r.attempts
                              && EndsFinally(r.events) && r.events[|r.events| - 1].AttemptFailed?
            case Abandoned(cause) =>
              && !EndsFinally(r.events) && cause != BodySentTwice
              && |r.events| == 2 * r.attempts - (if cause == AuthorityInvalid then 1 else 0)
            case Dropped => !EndsFinally(r.events)
  }

  // ----- steps keep it ---------------------------------------------------------------------------------

  lemma StartEvent(events: seq<Event>, k: nat)
    requires WellFormed(events) && !EndsFinally(events) && |events| == 2 * k
    ensures WellFormed(events + [AttemptStarted(k + 1)])
  {
    var more := events + [AttemptStarted(k + 1)];
    forall i | 0 <= i < |events| ensures more[i] == events[i] && (IsFinal(events[i]) ==> i == |events| - 1) {
      if i % 2 == 0 {
        assert events[i] == AttemptStarted(i / 2 + 1);
      }
    }
  }

  lemma EndEvent(events: seq<Event>, e: Event)
    requires WellFormed(events) && e.attempt >= 1 && |events| == 2 * e.attempt - 1 && !e.AttemptStarted?
    ensures WellFormed(events + [e]) && !EndsFinally(events)
    ensures EndsFinally(events + [e]) <==> IsFinal(e)
  {
    var more := events + [e];
    assert events[|events| - 1] == AttemptStarted((|events| - 1) / 2 + 1);
    forall i | 0 <= i < |events| ensures more[i] == events[i] {
    }
  }

  lemma LeaveReady(c: Config, r: Run, tokens: nat, outcome: Outcome)
    requires Accounts(c, r) && Routed(c, r) && WellFormed(r.events) && Ready(c, r)
    requires outcome == Dropped || (outcome.Abandoned? && outcome.cause in {Expired, SigningFailed})
    ensures Inv(c, Leave(r, tokens, outcome).0)
  {
    hide WellFormed, EndsFinally;
  }

  /** A pending permit is committed before its attempt is announced and sent. */
  lemma SendKeeps(c: Config, r: Run)
    requires ValidConfig(c) && Accounts(c, r) && Routed(c, r) && WellFormed(r.events)
    requires r.attempts == r.committed + Redirections(r) + Pending(r) && r.returned == 0 && r.credit == 0
    requires r.attempts < c.policy.maxAttempts && r.now < c.deadline
    requires |r.events| == 2 * r.attempts && !EndsFinally(r.events) && (c.body == OneShot ==> r.attempts == 0)
    ensures Inv(c, Send(r))
  {
    hide WellFormed, EndsFinally;
    StartEvent(r.events, r.attempts);
  }

  /** Signing: the deadline is checked before and after, and a one-shot body is never asked for twice. */
  lemma SignKeeps(c: Config, r: Run, tokens: nat, a: Action)
    requires ValidConfig(c) && Inv(c, r) && Enabled(c, r, a)
    requires a.SignFails? || a.Signs?
    ensures Inv(c, Apply(c, r, tokens, a).0)
  {
    hide WellFormed, EndsFinally, Routed, Send, Leave, FollowsRedirect, FollowRedirect, EndAttempt;
    RoutedLater(c, r, c.deadline);
    RoutedLater(c, r, a.at);
    if r.now >= c.deadline {
      LeaveReady(c, r, tokens, Abandoned(Expired));
    } else if a.at > c.deadline {
      LeaveReady(c, r.(now := c.deadline), tokens, Abandoned(Expired));
    } else if a.SignFails? {
      LeaveReady(c, r.(now := a.at), tokens, Abandoned(SigningFailed));
    } else {
      var signed := r.(now := a.at, bodyRequests := r.bodyRequests + 1);
      if a.at < c.deadline {
        SendKeeps(c, signed);
      } else {
        LeaveSigned(c, r.(now := a.at), tokens);
      }
    }
  }

  lemma RoutedLater(c: Config, r: Run, now: nat)
    requires Routed(c, r)
    ensures Routed(c, r.(now := now)) && Routed(c, r.(now := now, bodyRequests := r.bodyRequests + 1))
  {
  }

  lemma LeaveSigned(c: Config, r: Run, tokens: nat)
    requires Accounts(c, r) && Routed(c, r) && WellFormed(r.events) && Ready(c, r)
    ensures Inv(c, Leave(r.(bodyRequests := r.bodyRequests + 1), tokens, Abandoned(Expired)).0)
  {
    hide WellFormed, EndsFinally;
  }

  lemma AfterFailureKeeps(c: Config, r: Run, tokens: nat, failure: Failure)
    requires ValidConfig(c) && Accounts(c, r) && Routed(c, r) && WellFormed(r.events)
    requires r.permit == None && r.returned == 0 && r.credit == 0 && r.attempts >= 1
    requires r.attempts == r.committed + Redirections(r) + 1 && |r.events| == 2 * r.attempts - 1
    ensures Inv(c, AfterFailure(c, r, tokens, failure).0)
  {
    hide WellFormed, EndsFinally, JitterCeiling;
    EndEvent(r.events, AttemptFailed(r.attempts));
    match Decide(c, r.attempts, r.now, tokens, failure)
    case Stop(_) =>
    case Retry(delay, _) =>
      EndEvent(r.events, RetryScheduled(r.attempts, delay));
      DelayForMeaning(c.policy, failure.classification, r.attempts, r.now - c.started, failure.retryAfter,
                      failure.jitter);
  }

  /** The timers cut every attempt off at its own limit and at the deadline. */
  lemma AttemptEndsInTime(c: Config, sent: nat, heard: nat, read: nat)
    requires sent < c.deadline && sent <= heard <= read
    ensures sent <= AttemptEnd(c, sent, heard, read) <= c.deadline
    ensures AttemptLimit(c, sent) <= c.deadline
    ensures heard > AttemptLimit(c, sent) ==> AttemptEnd(c, sent, heard, read) - sent <= c.attemptTimeout
  {
  }

  lemma RedirectKeeps(c: Config, r: Run, tokens: nat, region: Text)
    requires ValidConfig(c) && Accounts(c, r) && Routed(c, r) && WellFormed(r.events)
    requires r.permit == None && r.returned == 0 && r.credit == 0
    requires r.attempts == r.committed + 1 && |r.events| == 2 * r.attempts - 1
    requires !r.redirected && ValidRegion(region) && RedirectAuthority(c.route, region).Some?
    requires IsReplayable(c) && r.attempts < c.policy.maxAttempts
    ensures Inv(c, FollowRedirect(c, r, tokens, region).0)
  {
    hide WellFormed, EndsFinally, RedirectAuthority, ValidRegion;
    EndEvent(r.events, RegionRedirected(r.attempts));
    TargetPathIsStable(c.route.parsers, r.target, [], RedirectAuthority(c.route, region).value);
  }

  lemma SentKeeps(c: Config, r: Run, tokens: nat, a: Action)
    requires ValidConfig(c) && Inv(c, r) && r.pc.Sent? && Enabled(c, r, a)
    ensures Inv(c, Apply(c, r, tokens, a).0)
  {
    hide WellFormed, EndsFinally, AfterFailure, FollowRedirect, AttemptEnd, AttemptLimit, Judged;
    hide RedirectAuthority, ValidRegion;
    EndEvent(r.events, AttemptSucceeded(r.attempts));
    if a.Answers? {
      AttemptEndsInTime(c, r.now, a.heard, a.read);
      if FollowsRedirect(c, r, a.heard, a.answer) {
        RedirectKeeps(c, r.(now := a.heard), tokens, a.answer.region);
      } else {
        var end := AttemptEnd(c, r.now, a.heard, a.read);
        AfterFailureKeeps(c, r.(now := end), tokens, Judged(c, r.now, a.heard, a.read, a.failure));
      }
    }
  }


  lemma StepKeeps(c: Config, r: Run, tokens: nat, a: Action)
    requires ValidConfig(c) && Inv(c, r) && Enabled(c, r, a)
    ensures Inv(c, Apply(c, r, tokens, a).0)
  {
    match r.pc
    case LoopHead =>
      if a.Drops? {
        LeaveReady(c, r, tokens, Dropped);
      } else {
        SignKeeps(c, r, tokens, a);
      }
    case Sent => SentKeeps(c, r, tokens, a);
    case Sleeping(until) =>
      hide WellFormed, EndsFinally;
    case Done(_) =>
  }

  /** The invariant holds after every sequence of steps, whatever the other runs do to the bucket. */
  lemma {:induction false} RunKeeps(c: Config, steps: seq<Step>)
    requires ValidConfig(c) && Exec(c, steps).Some?
    ensures Inv(c, Exec(c, steps).value)
  {
    if steps != [] {
      hide Inv, Apply, Enabled;
      RunKeeps(c, steps[..|steps| - 1]);
      var last := steps[|steps| - 1];
      StepKeeps(c, Exec(c, steps[..|steps| - 1]).value, last.tokens, last.action);
    }
  }

  // ----- the results --------------------------------------------------------------------------------------

  /** Neither the body, the error, the attempts nor the budget forbid another attempt. */
  predicate Open(c: Config, attempts: nat, elapsed: nat, cls: Classification) {
    IsReplayable(c) && cls != Never && attempts < c.policy.maxAttempts && elapsed < c.policy.maxElapsed
  }

  /** The longest delay that could have been drawn. */
  function LongestDelay(c: Config, cls: Classification, attempts: nat, after: Option<nat>): nat {
    if after.Some? then after.value else DelayCeiling(c.policy, cls, attempts)
  }

  /** Each reported reason holds when it is reported, and a scheduled retry is within every limit. */
  lemma StopReasonsHold(c: Config, attempts: nat, now: nat, tokens: nat, failure: Failure)
    requires ValidConfig(c) && attempts > 0 && c.started <= now
    ensures var elapsed, cls := now - c.started, failure.classification;
            var after := failure.retryAfter;
            var open := Open(c, attempts, elapsed, cls);
            match Decide(c, attempts, now, tokens, failure)
            case Stop(NonReplayable) => c.body == OneShot
            case Stop(NonRetryable) => cls == Never
            case Stop(AttemptsExhausted) => attempts >= c.policy.maxAttempts
            case Stop(ElapsedLimit) =>
              elapsed >= c.policy.maxElapsed || (open && after.Some? && elapsed + after.value > c.policy.maxElapsed)
            case Stop(Deadline) =>
              open && now + LongestDelay(c, cls, attempts, after) >= c.deadline
            case Stop(QuotaEmpty) => open && CostOf(cls).Some? && tokens < CostOf(cls).value
            case Retry(delay, cost) =>
              && open && CostOf(cls) == Some(cost) && cost <= tokens
              && elapsed + delay <= c.policy.maxElapsed && now + delay < c.deadline
              && (after.Some? ==> delay == after.value)
              && (after.None? ==> delay <= DelayCeiling(c.policy, cls, attempts))
  {
    var elapsed, cls := now - c.started, failure.classification;
    hide DelayFor, DelayCeiling;
    if cls != Never && attempts < c.policy.maxAttempts && elapsed < c.policy.maxElapsed {
      DelayForMeaning(c.policy, cls, attempts, elapsed, failure.retryAfter, failure.jitter);
    }
  }

  lemma {:induction false} ExecSnoc(c: Config, steps: seq<Step>, last: Step)
    requires ValidConfig(c) && Exec(c, steps).Some? && Exec(c, steps + [last]).Some?
    ensures var r := Exec(c, steps).value;
            && c.started <= r.now && Enabled(c, r, last.action)
            && Exec(c, steps + [last]) == Some(Apply(c, r, last.tokens, last.action).0)
  {
    hide Apply, Enabled;
    assert (steps + [last])[..|steps|] == steps;
  }

  /** Only a failed attempt ends a run with retry context or puts it to sleep, by the decision taken then. */
  lemma DecisionStep(c: Config, r: Run, tokens: nat, a: Action)
    requires ValidConfig(c) && Inv(c, r) && !r.pc.Done? && Enabled(c, r, a)
    ensures var t := Apply(c, r, tokens, a).0;
            (t.pc.Done? && t.pc.outcome.Failed?) || t.pc.Sleeping? ==>
              && r.pc.Sent? && a.Answers?
              && t.now == AttemptEnd(c, r.now, a.heard, a.read) && t.attempts == r.attempts > 0
              && match Decide(c, t.attempts, t.now, tokens, Judged(c, r.now, a.heard, a.read, a.failure))
                 case Stop(reason) => t.pc == Done(Failed(t.attempts, reason))
                 case Retry(delay, cost) => t.pc == Sleeping(t.now + delay) && t.permit == Some(cost)
  {
    hide Decide, WellFormed, Accounts, Ready, EndsFinally, Routed, RedirectAuthority, AttemptEnd, AttemptLimit, Judged;
  }

  /**
    Along every run: the reason attached to a reported failure holds at that moment, with the attempts
    counted in the trace; and a run goes to sleep only for a retry that every limit allows and that
    its permit has paid for.
   */
  lemma {:induction false} DecisionsAreSound(c: Config, steps: seq<Step>, last: Step)
    requires ValidConfig(c) && Exec(c, steps + [last]).Some?
    requires Exec(c, steps).Some? && !Exec(c, steps).value.pc.Done?
    requires var t := Exec(c, steps + [last]).value;
             (t.pc.Done? && t.pc.outcome.Failed?) || t.pc.Sleeping?
    ensures last.action.Answers?
    ensures var r, t, a := Exec(c, steps).value, Exec(c, steps + [last]).value, last.action;
            var failure := Judged(c, r.now, a.heard, a.read, a.failure);
            var elapsed, cls, after := t.now - c.started, failure.classification, failure.retryAfter;
            var open := Open(c, t.attempts, elapsed, cls);
            && |t.events| == 2 * t.attempts
            && match t.pc
               case Sleeping(until) =>
                 && open && t.permit.Some? && CostOf(cls) == t.permit && t.permit.value <= last.tokens
                 && t.now <= until < c.deadline && until - c.started <= c.policy.maxElapsed
                 && (after.Some? ==> until == t.now + after.value)
                 && (after.None? ==> until <= t.now + DelayCeiling(c.policy, cls, t.attempts))
               case Done(Failed(n, reason)) =>
                 && n == t.attempts
                 && (match reason
                     case NonReplayable => c.body == OneShot
                     case NonRetryable => cls == Never
                     case AttemptsExhausted => n >= c.policy.maxAttempts
                     case ElapsedLimit =>
                       || elapsed >= c.policy.maxElapsed
                       || (open && after.Some? && elapsed + after.value > c.policy.maxElapsed)
                     case Deadline => open && t.now + LongestDelay(c, cls, n, after) >= c.deadline
                     case QuotaEmpty => open && CostOf(cls).Some? && last.tokens < CostOf(cls).value)
               case _ => false
  {
    hide Exec, Inv, Apply, Enabled, Decide, DelayCeiling, Judged, AttemptEnd, LongestDelay, Open, CostOf;
    RunKeeps(c, steps);
    RunKeeps(c, steps + [last]);
    ExecSnoc(c, steps, last);
    var r, t, a := Exec(c, steps).value, Exec(c, steps + [last]).value, last.action;
    DecisionStep(c, r, last.tokens, a);
    InvFacts(c, t);
    StopReasonsHold(c, t.attempts, t.now, last.tokens, Judged(c, r.now, a.heard, a.read, a.failure));
  }

  lemma InvFacts(c: Config, r: Run)
    requires Inv(c, r) && (r.pc.Sleeping? || (r.pc.Done? && r.pc.outcome.Failed?))
    ensures c.started <= r.now && |r.events| == 2 * r.attempts
  {
    hide WellFormed, EndsFinally;
  }

  /**
    Every attempt is the first, the one redirected attempt, or paid for by its own permit committed
    before it was sent; every other permit acquired has been returned.
   */
  lemma {:induction false} AttemptsArePaid(c: Config, steps: seq<Step>)
    requires ValidConfig(c) && Exec(c, steps).Some?
    ensures var r := Exec(c, steps).value;
            && r.attempts <= c.policy.maxAttempts
            && r.attempts <= 1 + Redirections(r) + r.committed
            && (r.pc.LoopHead? ==> r.attempts == r.committed + Redirections(r) + Pending(r))
            && (r.pc.Sent? ==> r.attempts == r.committed + Redirections(r) + 1)
            && r.acquired == r.committed + r.returned + Pending(r)
            && (r.pc.Done? ==> r.permit == None && r.acquired == r.committed + r.returned)
            && (r.pc.Done? && !r.pc.outcome.Abandoned? && !r.pc.outcome.Dropped? ==> r.returned == 0)
  {
    RunKeeps(c, steps);
  }

  /** A one-shot body is requested at most once, so its "sent twice" error never happens. */
  lemma {:induction false} OneShotBodyOnce(c: Config, steps: seq<Step>)
    requires ValidConfig(c) && Exec(c, steps).Some?
    ensures var r := Exec(c, steps).value;
            && (c.body == OneShot ==> r.bodyRequests <= 1 && r.attempts <= 1)
            && r.pc != Done(Abandoned(BodySentTwice))
  {
    RunKeeps(c, steps);
  }

  lemma OddEndsWithStart(events: seq<Event>)
    requires WellFormed(events) && |events| % 2 == 1
    ensures events[|events| - 1].AttemptStarted?
  {
    assert events[|events| - 1] == AttemptStarted((|events| - 1) / 2 + 1);
  }

  /**
    The trace alternates numbered starts and their endings; a final event is last, and there is a
    failed event exactly when the error carries retry context, whose count is the number of starts.
   */
  lemma {:induction false} TraceGrammar(c: Config, steps: seq<Step>)
    requires ValidConfig(c) && Exec(c, steps).Some?
    ensures var r := Exec(c, steps).value;
            && WellFormed(r.events)
            && (|r.events| + 1) / 2 == r.attempts
            && (r.pc.Done? && !r.pc.outcome.Dropped? && r.pc != Done(Abandoned(AuthorityInvalid)) ==>
                  |r.events| == 2 * r.attempts)
            && ((r.events != [] && r.events[|r.events| - 1].AttemptFailed?) <==> (r.pc.Done? && r.pc.outcome.Failed?))
            && ((r.events != [] && r.events[|r.events| - 1].AttemptSucceeded?) <==> r.pc == Done(Succeeded))
            && (r.pc.Done? && r.pc.outcome.Failed? ==> r.pc.outcome.attempts == r.attempts)
  {
    hide Exec, Inv, WellFormed;
    RunKeeps(c, steps);
    TraceOfRun(c, Exec(c, steps).value);
  }

  lemma TraceOfRun(c: Config, r: Run)
    requires Inv(c, r)
    ensures WellFormed(r.events) && (|r.events| + 1) / 2 == r.attempts
    ensures r.pc.Done? && !r.pc.outcome.Dropped? && r.pc != Done(Abandoned(AuthorityInvalid)) ==>
              |r.events| == 2 * r.attempts
    ensures (r.events != [] && r.events[|r.events| - 1].AttemptFailed?) <==> (r.pc.Done? && r.pc.outcome.Failed?)
    ensures (r.events != [] && r.events[|r.events| - 1].AttemptSucceeded?) <==> r.pc == Done(Succeeded)
    ensures r.pc.Done? && r.pc.outcome.Failed? ==> r.pc.outcome.attempts == r.attempts
  {
    hide WellFormed, Routed;
    if |r.events| % 2 == 1 {
      OddEndsWithStart(r.events);
    }
  }

  /** How many steps a run can have taken when it is here. */
  function MostSteps(r: Run): int {
    match r.pc
    case LoopHead => 3 * r.attempts
    case Sent => 3 * r.attempts - 2
    case Sleeping(_) => 3 * r.attempts - 1
    case Done(_) => 3 * r.attempts + 1
  }

  lemma MostStepsGrow(c: Config, r: Run, tokens: nat, a: Action)
    requires ValidConfig(c) && Inv(c, r) && Enabled(c, r, a)
    ensures MostSteps(r) + 1 <= MostSteps(Apply(c, r, tokens, a).0)
  {
    hide WellFormed, Accounts, EndsFinally, Routed, RedirectAuthority, AttemptEnd, AttemptLimit, Judged, Decide;
  }

  lemma {:induction false} StepsAreBounded(c: Config, steps: seq<Step>)
    requires ValidConfig(c) && Exec(c, steps).Some?
    ensures |steps| <= MostSteps(Exec(c, steps).value)
  {
    if steps != [] {
      hide Inv, Apply, Enabled, MostSteps;
      var front, last := steps[..|steps| - 1], steps[|steps| - 1];
      StepsAreBounded(c, front);
      RunKeeps(c, front);
      MostStepsGrow(c, Exec(c, front).value, last.tokens, last.action);
    }
  }

  /**
    Every run ends: it takes at most three steps for each attempt and one more, and until it has
    ended there is always something that signing, the server or the backoff can do next.
   */
  lemma {:induction false} RunsEnd(c: Config, steps: seq<Step>)
    requires ValidConfig(c) && Exec(c, steps).Some?
    ensures var r := Exec(c, steps).value;
            && |steps| <= 3 * r.attempts + 1 <= 3 * c.policy.maxAttempts + 1
            && (!r.pc.Done? ==> exists a: Action :: !a.Drops? && Enabled(c, r, a))
  {
    StepsAreBounded(c, steps);
    RunKeeps(c, steps);
    var r := Exec(c, steps).value;
    hide Exec, WellFormed, EndsFinally, Routed;
    match r.pc
    case LoopHead => assert Enabled(c, r, Signs(r.now));
    case Sent => assert Enabled(c, r, Answers(r.now, r.now, Refusal, Failure(Never, None, 0)));
    case Sleeping(_) => assert Enabled(c, r, Wakes);
    case Done(_) =>
  }

  /**
    No run goes past its deadline, however late signing and answers come: signing, each attempt and each
    backoff are cut off or refused in time. Nothing is sent when the deadline had passed at the start.
   */
  lemma {:induction false} EndsByDeadline(c: Config, steps: seq<Step>)
    requires ValidConfig(c) && Exec(c, steps).Some?
    ensures var r := Exec(c, steps).value;
            && InTime(c, r.now)
            && (c.deadline <= c.started ==> r.attempts == 0)
            && (r.pc.Sent? ==> r.now <= AttemptLimit(c, r.now) <= c.deadline)
            && (r.pc.Sleeping? ==> r.pc.until < c.deadline && r.pc.until - c.started <= c.policy.maxElapsed)
  {
    RunKeeps(c, steps);
  }

  /** An attempt whose answer has not begun when its timeout or the deadline comes is over at that moment. */
  lemma {:induction false} AttemptsAreCutOff(c: Config, steps: seq<Step>, last: Step)
    requires ValidConfig(c) && Exec(c, steps + [last]).Some? && last.action.Answers?
    requires Exec(c, steps).Some?
    ensures var r, t := Exec(c, steps).value, Exec(c, steps + [last]).value;
            var limit := Min(r.now + c.attemptTimeout, c.deadline);
            && r.pc.Sent? && r.now <= t.now <= c.deadline
            && (last.action.heard > limit ==> t.now == limit && t.pc != Done(Succeeded) && !t.pc.LoopHead?)
            && (t.pc == Done(Succeeded) ==> t.now == last.action.read)
  {
    hide Exec, Inv, Apply, Enabled;
    RunKeeps(c, steps);
    ExecSnoc(c, steps, last);
    AnswerIsCutOff(c, Exec(c, steps).value, last.tokens, last.action);
  }

  lemma AnswerIsCutOff(c: Config, r: Run, tokens: nat, a: Action)
    requires ValidConfig(c) && Inv(c, r) && Enabled(c, r, a) && a.Answers?
    ensures var t, limit := Apply(c, r, tokens, a).0, Min(r.now + c.attemptTimeout, c.deadline);
            && r.pc.Sent? && r.now <= t.now <= c.deadline
            && (a.heard > limit ==> t.now == limit && t.pc != Done(Succeeded) && !t.pc.LoopHead?)
            && (t.pc == Done(Succeeded) ==> t.now == a.read)
  {
    AttemptEndsInTime(c, r.now, a.heard, a.read);
    hide WellFormed, EndsFinally, Routed, Accounts, RedirectAuthority, Decide, WithAuthority, ValidRegion;
  }

  /**
    Every attempt of a run goes to the path that was asked for, over the same scheme; before a redirect
    to the given authority and region, after it to that region's authority of the same AWS service.
   */
  lemma {:induction false} TargetIsKept(c: Config, steps: seq<Step>)
    requires ValidConfig(c) && Exec(c, steps).Some?
    ensures var r := Exec(c, steps).value;
            && r.target.scheme == c.target.scheme && r.target.pathAndQuery == c.target.pathAndQuery
            && (!r.redirected ==> r.target == c.target && r.region == c.region)
            && (r.redirected ==>
                  && IsReplayable(c) && c.route.endpoint.scheme == HTTPS
                  && var service := ServiceOf(Host(c.route.endpoint.authority));
                  && service.Some? && ServiceOf(RegionalHost(service.value, r.region)) == service
                  && r.target.authority == (if c.route.style == PathStyle then [] else c.route.bucket + [DOT])
                                           + RegionalHost(service.value, r.region))
  {
    RunKeeps(c, steps);
    var r := Exec(c, steps).value;
    hide Exec, WellFormed, EndsFinally, ServiceOf, Host, RegionalHost, ValidRegion, IsService;
    if r.redirected {
      ServiceOfIsService(Host(c.route.endpoint.authority));
      var service := ServiceOf(Host(c.route.endpoint.authority)).value;
      RegionalHostService(service, r.region);
      assert [] + RegionalHost(service, r.region) == RegionalHost(service, r.region);
    }
  }
}
