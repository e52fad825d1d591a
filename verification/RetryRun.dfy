/**
  The imperative form of `send_signed_inner`: one loop over `attempts_completed`,
  `region_redirected`, `last_retry_cost` and `pending_retry_permit`, using the shared bucket.
  A script says what the signer, the network and the other users of the bucket do.
 */
module RetryRun {
  import opened Wire
  import opened RetryPolicy
  import opened RetryQuota
  import opened RetryLoop
  import opened Endpoint

  /** The run that a script leads to; steps that cannot happen are passed over. */
  function Replay(c: Config, script: seq<Step>): Run
    requires ValidConfig(c)
  {
    if script == [] then Initial(c)
    else
      var r, last := Replay(c, script[..|script| - 1]), script[|script| - 1];
      if Enabled(c, r, last.action) && c.started <= r.now then Apply(c, r, last.tokens, last.action).0 else r
  }

  function Taken(c: Config, script: seq<Step>): seq<Step>
    requires ValidConfig(c)
  {
    if script == [] then []
    else
      var front, last := script[..|script| - 1], script[|script| - 1];
      var r := Replay(c, front);
      if Enabled(c, r, last.action) && c.started <= r.now then Taken(c, front) + [last] else Taken(c, front)
  }

  /** The level of the bucket when the last step of a script has been taken; `start` before the first one. */
  function Level(c: Config, script: seq<Step>, start: nat): nat
    requires ValidConfig(c)
  {
    if script == [] then start
    else
      var front, last := script[..|script| - 1], script[|script| - 1];
      var r := Replay(c, front);
      if Enabled(c, r, last.action) && c.started <= r.now then Apply(c, r, last.tokens, last.action).1
      else Level(c, front, start)
  }

  lemma {:induction false} ReplayIsRun(c: Config, script: seq<Step>)
    requires ValidConfig(c)
    ensures Exec(c, Taken(c, script)) == Some(Replay(c, script))
    ensures Inv(c, Replay(c, script))
  {
    hide Apply, Enabled, Inv;
    if script != [] {
      var front, last := script[..|script| - 1], script[|script| - 1];
      ReplayIsRun(c, front);
      var taken := Taken(c, front) + [last];
      assert taken[..|taken| - 1] == Taken(c, front);
    }
    RunKeeps(c, Taken(c, script));
  }

  lemma {:induction false} ReplaySnoc(c: Config, script: seq<Step>, i: nat, start: nat)
    requires ValidConfig(c) && i < |script|
    ensures var r, step := Replay(c, script[..i]), script[i];
            && c.started <= r.now
            && (Replay(c, script[..i + 1]), Level(c, script[..i + 1], start)) ==
               if Enabled(c, r, step.action) then Apply(c, r, step.tokens, step.action)
               else (r, Level(c, script[..i], start))
  {
    ReplayIsRun(c, script[..i]);
    hide Apply, Enabled;
    assert script[..i + 1][..i] == script[..i];
  }

  class Sender {
    const config: Config
    const quota: Quota
    const script: seq<Step>
    var position: nat
    var now: nat
    var attempts: nat
    var target: Url
    var signingRegion: Text
    var regionRedirected: bool
    var lastRetryCost: Option<nat>
    var pendingPermit: Permit?
    var bodyRequests: nat
    var events: seq<Event>
    ghost var run: Run
    ghost const start: nat

    ghost predicate Valid()
      reads this, pendingPermit
    {
      && ValidConfig(config) && position <= |script|
      && config.started <= now
      && run.now == now && run.attempts == attempts && run.redirected == regionRedirected
      && run.target == target && run.region == signingRegion
      && run.lastRetryCost == lastRetryCost && run.bodyRequests == bodyRequests && run.events == events
      && (pendingPermit == null <==> run.permit == None)
      && (pendingPermit != null ==>
            pendingPermit.quota == quota && !pendingPermit.committed && run.permit == Some(pendingPermit.cost))
    }

    /** Run and bucket are where the steps consumed so far lead. */
    ghost predicate Follows()
      reads this, pendingPermit, quota
    {
      && Valid()
      && run == Replay(config, script[..position])
      && quota.tokens == Level(config, script[..position], start)
    }

    constructor (config: Config, quota: Quota, script: seq<Step>)
      requires ValidConfig(config)
      ensures start == quota.tokens
      ensures this.config == config && this.quota == quota && this.script == script && pendingPermit == null
      ensures Valid() && position == 0 && run == Initial(config)
    {
      this.config, this.quota, this.script, position := config, quota, script, 0;
      now, attempts, regionRedirected := config.started, 0, false;
      target, signingRegion := config.target, config.region;
      lastRetryCost, pendingPermit, bodyRequests, events := None, null, 0, [];
      run := Initial(config);
      start := quota.tokens;
    }

    /** Waits for the next thing that can happen here; meanwhile others have used the bucket. */
    method Next(pc: Pc) returns (step: Option<Step>)
      requires Follows() && run.pc == pc
      modifies this`position, quota
      ensures Valid() && old(position) <= position
      ensures step.None? ==> position == |script| && Follows()
      ensures step.Some? ==>
                && old(position) < position && step.value == script[position - 1]
                && Enabled(config, run, step.value.action) && quota.tokens == step.value.tokens
                && (Replay(config, script[..position]), Level(config, script[..position], start))
                   == Apply(config, run, step.value.tokens, step.value.action)
    {
      hide Enabled, Apply, Replay, Level;
      while position < |script|
        invariant Follows() && old(position) <= position
        decreases |script| - position
      {
        var s := script[position];
        var here := Run(pc, now, attempts, target, signingRegion, regionRedirected, None, None, 0, [], 0, 0, 0, 0, 0);
        ReplaySnoc(config, script, position, start);
        SameChoices(config, here, run, s.action);
        position := position + 1;
        if Enabled(config, here, s.action) {
          quota.tokens := s.tokens;
          return Some(s);
        }
      }
      return None;
    }

    /** Returning from the loop drops a pending permit. */
    method Leave(outcome: Outcome)
      requires Valid()
      modifies this`pendingPermit, this`run, quota
      ensures Valid() && pendingPermit == null && run.pc == Done(outcome)
      ensures (run, quota.tokens) == RetryLoop.Leave(old(run), old(quota.tokens), outcome)
    {
      if pendingPermit != null {
        pendingPermit.Drop();
      }
      pendingPermit := null;
      run := RetryLoop.Leave(run, 0, outcome).0;
    }

    /** Commits the pending permit, announces the attempt and sends it. */
    method CommitAndSend()
      requires Valid()
      modifies this`attempts, this`lastRetryCost, this`pendingPermit, this`events, this`run, pendingPermit
      ensures Valid() && pendingPermit == null && run == Send(old(run))
    {
      if pendingPermit != null {
        var cost := pendingPermit.Commit();
        lastRetryCost := Some(cost);
        pendingPermit := null;
      }
      events := events + [AttemptStarted(attempts + 1)];
      attempts := attempts + 1;
      run := Send(run);
    }

    /** The head of the loop, up to the attempt that is under way. */
    method SignAndSend(action: Action) returns (next: Pc)
      requires Valid() && run.pc.LoopHead? && Enabled(config, run, action)
      modifies this`now, this`attempts, this`lastRetryCost, this`pendingPermit
      modifies this`bodyRequests, this`events, this`run, quota, pendingPermit
      ensures Valid() && pendingPermit == null
      ensures (run, quota.tokens) == Apply(config, old(run), old(quota.tokens), action)
      ensures next == run.pc && (next.Done? || next.Sent?)
    {
      hide Send, RetryLoop.Leave, FollowsRedirect, FollowRedirect, RetryLoop.EndAttempt;
      var outcome;
      if action.Drops? {
        outcome := Dropped;
      } else if now >= config.deadline || action.at > config.deadline {
        if now < config.deadline {
          now := config.deadline;
        }
        run := run.(now := now);
        outcome := Abandoned(Expired);
      } else {
        now := action.at;
        run := run.(now := now);
        if action.SignFails? {
          outcome := Abandoned(SigningFailed);
        } else if config.body == OneShot && bodyRequests > 0 {
          outcome := Abandoned(BodySentTwice);
        } else {
          bodyRequests := bodyRequests + 1;
          run := run.(bodyRequests := bodyRequests);
          if now < config.deadline {
            CommitAndSend();
            SentNext(old(run).(now := now, bodyRequests := bodyRequests));
            return Sent;
          }
          outcome := Abandoned(Expired);
        }
      }
      Leave(outcome);
      return Done(outcome);
    }

    /** From a failed attempt to its error or its backoff. */
    method AfterFailure(failure: Failure) returns (next: Pc)
      requires Valid() && run.pc.Sent? && pendingPermit == null
      modifies this`pendingPermit, this`events, this`run, quota
      ensures Valid()
      ensures (run, quota.tokens) == RetryLoop.AfterFailure(config, old(run), old(quota.tokens), failure)
      ensures next == run.pc && (next.Done? || next.Sleeping?)
      ensures pendingPermit != null ==> fresh(pendingPermit)
    {
      hide DelayFor;
      var elapsed := now - config.started;
      var policy := config.policy;
      var stop: Option<StopReason> :=
        if config.body == OneShot then Some(NonReplayable)
        else if failure.classification == Never then Some(NonRetryable)
        else if attempts >= policy.maxAttempts then Some(AttemptsExhausted)
        else if elapsed >= policy.maxElapsed then Some(ElapsedLimit)
        else None;
      var delay := 0;
      if stop.None? {
        var d := DelayFor(policy, failure.classification, attempts, elapsed, failure.retryAfter, failure.jitter);
        if d.None? {
          stop := Some(ElapsedLimit);
        } else if now >= config.deadline || d.value >= config.deadline - now {
          stop := Some(Deadline);
        } else {
          delay := d.value;
          var permit := quota.Acquire(failure.classification);
          if permit == null {
            stop := Some(QuotaEmpty);
          } else {
            pendingPermit := permit;
          }
        }
      }
      if stop.Some? {
        events := events + [AttemptFailed(attempts)];
        run := Emit(run, AttemptFailed(attempts)).(pc := Done(Failed(attempts, stop.value)));
        return Done(Failed(attempts, stop.value));
      }
      events := events + [RetryScheduled(attempts, delay)];
      run := Emit(run, RetryScheduled(attempts, delay)).(
        pc := Sleeping(now + delay), permit := Some(pendingPermit.cost), acquired := run.acquired + 1);
      return Sleeping(now + delay);
    }

    /** The outcome of one attempt: success, a region redirect, or a failure. */
    method Receive(action: Action) returns (next: Pc)
      requires Valid() && run.pc.Sent? && pendingPermit == null && Enabled(config, run, action)
      modifies this`now, this`target, this`signingRegion, this`regionRedirected, this`pendingPermit
      modifies this`events, this`run, quota
      ensures Valid()
      ensures (run, quota.tokens) == Apply(config, old(run), old(quota.tokens), action)
      ensures next == run.pc && !next.Sent?
      ensures next.LoopHead? ==> pendingPermit == null
      ensures pendingPermit != null ==> fresh(pendingPermit)
    {
      hide RedirectAuthority, AttemptLimit, FollowRedirect, RetryLoop.EndAttempt;
      if action.Drops? {
        run := run.(pc := Done(Dropped));
        return Done(Dropped);
      }
      if action.answer.Redirect? && action.heard <= AttemptLimit(config, now) {
        var authority := RedirectAuthority(config.route, action.answer.region);
        if authority.Some? && config.body != OneShot && attempts < config.policy.maxAttempts
           && action.heard - config.started < config.policy.maxElapsed {
          now := action.heard;
          run := run.(now := now);
          next := Redirect(authority.value, action.answer.region);
          return;
        }
      }
      next := EndAttempt(action);
    }

    /** The attempt is cut off by its timeout or the deadline, succeeds, or fails. */
    method EndAttempt(action: Action) returns (next: Pc)
      requires Valid() && run.pc.Sent? && pendingPermit == null
      requires action.Answers? && now <= action.heard <= action.read
      modifies this`now, this`pendingPermit, this`events, this`run, quota
      ensures Valid()
      ensures (run, quota.tokens) == RetryLoop.EndAttempt(config, old(run), old(quota.tokens), action)
      ensures next == run.pc && (next.Done? || next.Sleeping?)
      ensures pendingPermit != null ==> fresh(pendingPermit)
    {
      hide Decide, RetryLoop.AfterFailure;
      var attemptTimeout := if now < config.deadline then Min(config.attemptTimeout, config.deadline - now) else 0;
      if action.heard > now + attemptTimeout {
        now := now + attemptTimeout;
        run := run.(now := now);
        next := AfterFailure(Failure(Retryable, None, action.failure.jitter));
        return;
      }
      var late := action.read > config.deadline;
      now := if late then Max(action.heard, config.deadline) else action.read;
      run := run.(now := now);
      if !late && action.answer.Success? {
        quota.ReplenishAfterSuccess(lastRetryCost);
        events := events + [AttemptSucceeded(attempts)];
        run := Emit(run, AttemptSucceeded(attempts)).(
          credit := run.credit + SuccessCredit(lastRetryCost), pc := Done(Succeeded));
        return Done(Succeeded);
      }
      next := AfterFailure(if late then action.failure.(classification := Retryable) else action.failure);
    }

    /** Moves the target and the signing region, once. */
    method Redirect(authority: Text, region: Text) returns (next: Pc)
      requires Valid() && pendingPermit == null
      requires RedirectAuthority(config.route, region) == Some(authority)
      modifies this`target, this`signingRegion, this`regionRedirected, this`events, this`run
      ensures Valid() && pendingPermit == null
      ensures (run, quota.tokens) == FollowRedirect(config, old(run), old(quota.tokens), region)
      ensures next == run.pc && (next.Done? || next == LoopHead)
    {
      hide RedirectAuthority, WithAuthority;
      var moved := WithAuthority(config.route.parsers, target, authority);
      if moved.Err? {
        run := run.(pc := Done(Abandoned(AuthorityInvalid)));
        return Done(Abandoned(AuthorityInvalid));
      }
      target := moved.value;
      signingRegion := region;
      regionRedirected := true;
      events := events + [RegionRedirected(attempts)];
      run := Emit(run, RegionRedirected(attempts)).(
        target := target, region := region, redirected := true, pc := LoopHead);
      return LoopHead;
    }

    /** The loop; `None` means it is still waiting when the script ends. */
    method Execute() returns (outcome: Option<Outcome>)
      requires Valid() && position == 0 && run == Initial(config) && pendingPermit == null && start == quota.tokens
      modifies this, quota
      ensures Valid() && run == Replay(config, script) && quota.tokens == Level(config, script, start)
      ensures if outcome.Some? then run.pc == Done(outcome.value) else !run.pc.Done?
    {
      assert script[..0] == [];
      hide Enabled, Apply, Replay, Level;
      ReplayEmpty(config, start);
      assert script[..|script|] == script;
      var pc := LoopHead;
      while true
        invariant Follows()
        invariant run.pc == pc && (pc == LoopHead || pc.Sleeping?)
        invariant pendingPermit != null ==> fresh(pendingPermit)
        decreases |script| - position
      {
        SleepIsLater(config, script[..position]);
        if pc.Sleeping? {
          var step := Next(pc);
          if step.None? {
            return None;
          }
          pc := Sleep(pc.until, step.value.action);
        } else {
          var step := Next(pc);
          if step.None? {
            return None;
          }
          pc := SignAndSend(step.value.action);
          if pc == Sent {
            step := Next(pc);
            if step.None? {
              return None;
            }
            pc := Receive(step.value.action);
          }
        }
        if pc.Done? {
          FinishedStays(config, script, position, start);
          return Some(pc.outcome);
        }
      }
    }

    /** The backoff: it runs to its end, or the caller goes away. */
    method Sleep(until: nat, action: Action) returns (next: Pc)
      requires Valid() && run.pc == Sleeping(until) && Enabled(config, run, action) && config.started <= until
      modifies this`now, this`pendingPermit, this`run, quota
      ensures Valid() && (pendingPermit == null || pendingPermit == old(pendingPermit))
      ensures (run, quota.tokens) == Apply(config, old(run), old(quota.tokens), action)
      ensures next == run.pc && (next.Done? || next == LoopHead)
    {
      if action.Wakes? {
        now := until;
        run := run.(now := now, pc := LoopHead);
        return LoopHead;
      }
      Leave(Dropped);
      return Done(Dropped);
    }
  }

  /** A whole request against a bucket that others use too. */
  method SendSigned(config: Config, quota: Quota, script: seq<Step>)
    returns (outcome: Option<Outcome>, events: seq<Event>)
    requires ValidConfig(config)
    modifies quota
    ensures events == Replay(config, script).events
    ensures quota.tokens == Level(config, script, old(quota.tokens))
    ensures if outcome.Some? then Replay(config, script).pc == Done(outcome.value) else !Replay(config, script).pc.Done?
  {
    var sender := new Sender(config, quota, script);
    outcome := sender.Execute();
    events := sender.events;
  }

  lemma ReplayEmpty(c: Config, start: nat)
    requires ValidConfig(c)
    ensures Replay(c, []) == Initial(c) && Level(c, [], start) == start
  {
  }

  lemma SentNext(r: Run)
    ensures Send(r).pc == Sent
  {
  }

  lemma {:induction false} SleepIsLater(c: Config, script: seq<Step>)
    requires ValidConfig(c)
    ensures Replay(c, script).pc.Sleeping? ==> c.started <= Replay(c, script).pc.until
  {
    ReplayIsRun(c, script);
  }

  lemma {:induction false} FinishedStays(c: Config, script: seq<Step>, n: nat, start: nat)
    requires ValidConfig(c) && n <= |script| && Replay(c, script[..n]).pc.Done?
    ensures Replay(c, script) == Replay(c, script[..n]) && Level(c, script, start) == Level(c, script[..n], start)
    decreases |script| - n
  {
    if n == |script| {
      assert script[..n] == script;
    } else {
      DoneIsFinal(c, Replay(c, script[..n]), script[n].action);
      hide Replay, Level, Enabled, Apply;
      ReplaySnoc(c, script, n, start);
      FinishedStays(c, script, n + 1, start);
    }
  }

  lemma DoneIsFinal(c: Config, r: Run, a: Action)
    requires r.pc.Done?
    ensures !Enabled(c, r, a)
  {
  }

  lemma SameChoices(c: Config, r: Run, s: Run, a: Action)
    requires r.pc == s.pc && r.now == s.now && r.redirected == s.redirected
    ensures Enabled(c, r, a) == Enabled(c, s, a)
  {
  }
}
