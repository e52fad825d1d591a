/**
  The imperative form of `run_multipart_upload`, `upload_parts`, `quiesce_part_requests` and
  `fail_with_abort`: loops over local variables that wait for the world to move. A script says
  what the world does, in order; every script is allowed, and steps that cannot happen are
  passed over.
 */
module ManagedUploadRun {
  import opened Wire
  import opened MultipartParts
  import opened ManagedUpload
  import opened ManagedUploadSafety

  // ----- the state machine driven by a script --------------------------------------------------

  function Replay(c: Config, script: seq<Action>): State
    requires ValidConfig(c)
  {
    if script == [] then INITIAL
    else
      var s, a := Replay(c, script[..|script| - 1]), script[|script| - 1];
      if Enabled(c, s, a) then Apply(c, s, a) else s
  }

  /** The steps of a script that do happen. */
  function Taken(c: Config, script: seq<Action>): seq<Action>
    requires ValidConfig(c)
  {
    if script == [] then []
    else
      var front, a := script[..|script| - 1], script[|script| - 1];
      if Enabled(c, Replay(c, front), a) then Taken(c, front) + [a] else Taken(c, front)
  }

  lemma {:induction false} ReplayIsRun(c: Config, script: seq<Action>)
    requires ValidConfig(c)
    ensures Exec(c, Taken(c, script)) == Some(Replay(c, script))
  {
    hide Enabled, Apply;
    if script != [] {
      var front, a := script[..|script| - 1], script[|script| - 1];
      ReplayIsRun(c, front);
      var taken := Taken(c, front) + [a];
      assert taken[..|taken| - 1] == Taken(c, front);
    }
  }

  lemma {:induction false} ReplaySnoc(c: Config, script: seq<Action>, i: nat)
    requires ValidConfig(c) && i < |script|
    ensures var s := Replay(c, script[..i]);
            Replay(c, script[..i + 1]) == if Enabled(c, s, script[i]) then Apply(c, s, script[i]) else s
  {
    hide Enabled, Apply;
    assert script[..i + 1][..i] == script[..i];
  }

  /** Steps of the clock, the caller and the server, which no code of the worker performs. */
  predicate Ambient(a: Action) {
    a.Advance? || a.Cancel? || a.ServerStores?
  }

  /** `ManagedUploadFailure`. */
  datatype Failure = Failure(primary: S3Error, cleanupDeadline: nat, quiesceFailure: Option<S3Error>)

  datatype PartPhase = AllRecorded | Failed(failure: Failure) | StillWaiting

  // ----- the worker -------------------------------------------------------------------------------

  class Worker {
    const config: Config
    const script: seq<Action>
    const upload: MultipartUpload
    var position: nat
    var now: nat
    var cancelled: bool
    var versions: set<Version>
    var nextPart: nat
    var pending: set<nat>
    ghost var state: State

    ghost predicate Valid()
      reads this, upload
    {
      && ValidConfig(config)
      && position <= |script|
      && state.now == now && state.cancelled == cancelled && state.versions == versions
      && state.next == nextPart && state.pending == pending
      && upload.completedParts == state.upload && Ascending(state.upload)
    }

    /** What the machine has reached after the steps consumed so far. */
    ghost function Reached(): State
      requires Valid()
      reads this, upload
    {
      Replay(config, script[..position])
    }

    constructor (config: Config, script: seq<Action>)
      requires ValidConfig(config)
      ensures this.config == config && this.script == script
      ensures Valid() && state == Reached() && state.phase == Preparing && fresh(upload)
    {
      this.config, this.script := config, script;
      upload := new MultipartUpload();
      position, now, cancelled, versions := 0, 0, false, {};
      nextPart, pending := 1, {};
      state := INITIAL;
      new;
      assert script[..0] == [];
    }

    /** `select!`: lets the world move until a branch of the waiting code is ready. */
    method Wait(phase: Phase) returns (event: Option<Action>)
      requires Valid() && state == Reached() && state.phase == phase
      modifies this`position, this`now, this`cancelled, this`versions, this`state
      ensures Valid() && state == Reached() && old(position) <= position
      ensures state == old(state).(now := now, cancelled := cancelled, versions := versions)
      ensures event.Some? ==> && position < |script| && event.value == script[position]
                              && !Ambient(event.value) && Enabled(config, state, event.value)
      ensures event.None? ==> position == |script|
    {
      hide Enabled, Apply, Replay;
      while position < |script|
        invariant Valid()
        invariant state == Reached()
        invariant old(position) <= position
        invariant state == old(state).(now := now, cancelled := cancelled, versions := versions)
        decreases |script| - position
      {
        var a := script[position];
        var here := State(phase, now, cancelled, nextPart, pending, upload.completedParts, {}, versions, []);
        ReplaySnoc(config, script, position);
        SameChoices(config, here, state, a);
        if Ambient(a) {
          AmbientSteps(config, state, a);
          if Enabled(config, here, a) {
            match a {
              case Advance(to) => now := to;
              case Cancel => cancelled := true;
              case ServerStores(k, etag) => versions := versions + {Version(k, etag, Body(config, k))};
            }
            state := state.(now := now, cancelled := cancelled, versions := versions);
          }
        } else if Enabled(config, here, a) {
          return Some(a);
        }
        position := position + 1;
      }
      return None;
    }

    /** `quiesce_part_requests`: in-flight parts get half of the cleanup time to settle. */
    method QuiescePartRequests(primary: S3Error) returns (r: PartPhase)
      requires Valid() && Reached() == BeginQuiesce(config, state, primary)
      modifies this
      ensures Valid() && upload.completedParts == old(upload.completedParts) && old(position) <= position
      ensures !r.AllRecorded?
      ensures r.Failed? ==> AbortIsNext(r.failure)
      ensures r.StillWaiting? ==> position == |script| && state == Reached() && !state.phase.Done?
    {
      hide Enabled, Apply, Replay, Ascending;
      var cleanupDeadline := now + config.cleanupTimeout;
      var settleUntil := now + config.cleanupTimeout / 2;
      var quiesceFailure := None;
      state := Log(state, PartPhaseFailed(primary)).(phase := Quiescing(primary, settleUntil, cleanupDeadline));
      while pending != {}
        invariant Valid() && upload.completedParts == old(upload.completedParts) && old(position) <= position
        invariant state.phase == Quiescing(primary, settleUntil, cleanupDeadline)
        invariant if pending != {} then state == Reached() && quiesceFailure == None
                  else Reached() == BeginAbort(state, primary, quiesceFailure, cleanupDeadline)
        decreases |script| - position
      {
        var event := Wait(Quiescing(primary, settleUntil, cleanupDeadline));
        if event.None? {
          return StillWaiting;
        }
        ReplaySnoc(config, script, position);
        QuiescingSteps(config, state, event.value);
        position := position + 1;
        match event.value
        case Settles(k) =>
          pending := pending - {k};
          state := Settle(state, k);
        case SettleTimesOut =>
          quiesceFailure := Some(QUIESCE_TIMEOUT);
          state := state.(abandoned := pending, pending := {});
          pending := {};
        case _ =>
          assert false;
      }
      return Failed(Failure(primary, cleanupDeadline, quiesceFailure));
    }

    /** The next request is the abort for this failure. */
    ghost predicate AbortIsNext(failure: Failure)
      requires Valid()
      reads this, upload
    {
      Reached() == BeginAbort(state, failure.primary, failure.quiesceFailure, failure.cleanupDeadline)
    }

    /**
      `upload_parts`. On entry the machine is at the head of the scheduler's loop; afterwards every
      part is recorded and the completion comes next, or the abort comes next.
     */
    method UploadParts(partCount: nat) returns (r: PartPhase)
      requires Valid() && partCount == Count(config)
      requires Reached() == LoopHead(config, state)
      modifies this, upload
      ensures Valid()
      ensures r.AllRecorded? ==> Reached() == BeginCompletion(config, state)
      ensures r.Failed? ==> AbortIsNext(r.failure)
      ensures r.StillWaiting? ==> position == |script| && state == Reached() && !state.phase.Done?
    {
      hide Enabled, Apply, Replay, BeginQuiesce, BeginCompletion, Record, LoopHead, Count, Ascending;
      while true
        invariant Valid() && Reached() == LoopHead(config, state)
        decreases |script| - position
      {
        ghost var here := position;
        while |pending| < config.options.concurrency && nextPart <= partCount
          invariant Valid()
          invariant position == here
          invariant Reached() == LoopHead(config, state)
          decreases partCount + 1 - nextPart
        {
          LoopHeadStarts(config, state);
          state := Start(state);
          pending := pending + {nextPart};
          nextPart := nextPart + 1;
        }
        LoopHeadWaits(config, state);
        if pending == {} {
          return AllRecorded;
        }
        state := state.(phase := Uploading);
        var event := Wait(Uploading);
        if event.None? {
          return StillWaiting;
        }
        var ended := React(event.value);
        if ended.Some? {
          return ended.value;
        }
      }
    }

    /** One finished wait of the scheduler: a part is recorded, or the part phase is over. */
    method React(event: Action) returns (ended: Option<PartPhase>)
      requires Valid() && state == Reached() && state.phase == Uploading
      requires position < |script| && event == script[position] && !Ambient(event) && Enabled(config, state, event)
      modifies this, upload
      ensures Valid() && old(position) < position
      ensures ended.None? ==> Reached() == LoopHead(config, state)
      ensures ended.Some? ==> !ended.value.AllRecorded?
      ensures ended.Some? && ended.value.Failed? ==> AbortIsNext(ended.value.failure)
      ensures ended.Some? && ended.value.StillWaiting? ==>
                position == |script| && state == Reached() && !state.phase.Done?
    {
      hide Enabled, Apply, Replay, BeginQuiesce, LoopHead, Ascending, Record;
      ReplaySnoc(config, script, position);
      UploadingSteps(config, state, event);
      position := position + 1;
      var primary;
      match event {
        case PartDone(k, etag) =>
          pending := pending - {k};
          var error := upload.RecordPart(CompletedPart(k, etag));
          state := Settle(state, k);
          if error.None? {
            state := state.(upload := upload.completedParts);
            return None;
          }
          state := Log(state, Defect);
          primary := BOOKKEEPING;
        case PartFails(k, error) =>
          pending := pending - {k};
          state := Settle(state, k);
          primary := error;
        case SeeCancellation =>
          primary := CANCELLED;
        case DeadlineFires =>
          primary := TRANSFER_TIMEOUT;
        case SchedulerLosesPart =>
          state := Log(state, Defect);
          primary := BOOKKEEPING;
        case _ =>
          assert false;
      }
      var r := QuiescePartRequests(primary);
      return Some(r);
    }

    /** `fail_with_abort`. */
    method FailWithAbort(failure: Failure) returns (outcome: Option<Result<Text, S3Error>>)
      requires Valid() && AbortIsNext(failure)
      modifies this
      ensures Valid() && state == Reached()
      ensures outcome.None? ==> position == |script| && !state.phase.Done?
      ensures outcome.Some? ==> state.phase == Done(outcome.value)
    {
      hide Enabled, Apply, Replay;
      var phase := Aborting(failure.primary, failure.quiesceFailure, failure.cleanupDeadline);
      state := BeginAbort(state, failure.primary, failure.quiesceFailure, failure.cleanupDeadline);
      var event := Wait(phase);
      if event.None? {
        return None;
      }
      ReplaySnoc(config, script, position);
      AbortingSteps(config, state, event.value);
      position := position + 1;
      state := Apply(config, state, event.value);
      var cleanup := CleanupFailure(event.value.failure, failure.quiesceFailure);
      return Some(Err(AttachCleanupFailure(failure.primary, cleanup)));
    }

    /** The completion request and its outcome. */
    method Complete() returns (outcome: Option<Result<Text, S3Error>>)
      requires Valid() && Reached() == BeginCompletion(config, state)
      modifies this
      ensures Valid() && state == Reached()
      ensures outcome.None? ==> position == |script| && !state.phase.Done?
      ensures outcome.Some? ==> state.phase == Done(outcome.value)
    {
      hide Enabled, Apply, Replay, Validate, Flatten, Ascending;
      if Validate(upload.completedParts).Some? {
        state := Log(Log(state, Defect), CompletionFailed(BOOKKEEPING));
        outcome := FailWithAbort(Failure(BOOKKEEPING, now + config.cleanupTimeout, None));
        return;
      }
      state := Log(state, CompleteSent(state.upload)).(phase := Completing);
      var event := Wait(Completing);
      if event.None? {
        return None;
      }
      ReplaySnoc(config, script, position);
      CompletingSteps(config, state, event.value);
      position := position + 1;
      if event.value.CompleteSucceeds? {
        state := Apply(config, state, event.value);
        return Some(Ok(Flatten(event.value.bodies)));
      }
      var primary := if event.value.SeeCancellation? then CANCELLED else event.value.error;
      state := Log(state, CompletionFailed(primary));
      outcome := FailWithAbort(Failure(primary, now + config.cleanupTimeout, None));
    }

    /** `run_multipart_upload`. */
    method Execute() returns (outcome: Option<Result<Text, S3Error>>)
      requires Valid() && state == Reached() && state.phase == Preparing
      modifies this, upload
      ensures Valid() && state == Reached()
      ensures outcome.None? ==> position == |script| && !state.phase.Done?
      ensures outcome.Some? ==> state.phase == Done(outcome.value)
    {
      hide Enabled, Apply, Replay, LoopHead, Ascending, BeginCompletion, BeginAbort, PartCount;
      var event := Wait(Preparing);
      if event.None? {
        return None;
      }
      ReplaySnoc(config, script, position);
      PreparingSteps(config, state, event.value);
      position := position + 1;
      state := Apply(config, state, event.value);
      match event.value {
        case PrepareFails(error) => return Some(Err(error));
        case PrepareTimesOut => return Some(Err(TRANSFER_TIMEOUT));
        case SeeCancellation => return Some(Err(CANCELLED));
        case _ =>
      }
      var partCount := PartCount(|config.source|, config.options.partSize);
      if partCount.Err? {
        return Some(Err(INVALID_SOURCE));
      }
      if cancelled {
        return Some(Err(CANCELLED));
      }
      event := Wait(Creating);
      if event.None? {
        return None;
      }
      ReplaySnoc(config, script, position);
      CreatingSteps(config, state, event.value);
      position := position + 1;
      if event.value.CreateFails? {
        state := Apply(config, state, event.value);
        return Some(Err(event.value.error));
      }
      state := Log(state, Created);
      var parts := UploadParts(partCount.value);
      match parts
      case StillWaiting => return None;
      case Failed(failure) => outcome := FailWithAbort(failure);
      case AllRecorded => outcome := Complete();
    }
  }

  /** The whole upload, under any script of the world around it. */
  method MultipartUploadRun(config: Config, script: seq<Action>) returns (outcome: Option<Result<Text, S3Error>>)
    requires ValidConfig(config)
    ensures outcome.Some? <==> Replay(config, script).phase.Done?
    ensures outcome.Some? ==> Replay(config, script).phase == Done(outcome.value)
    ensures outcome.Some? && outcome.value.Ok? ==> outcome.value.value == config.source
  {
    var worker := new Worker(config, script);
    outcome := worker.Execute();
    assert script[..|script|] == script;
    if outcome.Some? {
      DoneStays(config, script, worker.position);
      ReplayIsRun(config, script);
      if outcome.value.Ok? {
        SuccessIsTheSource(config, Taken(config, script));
      }
    }
  }

  /** A finished run stays finished, with its outcome. */
  lemma {:induction false} DoneStays(c: Config, script: seq<Action>, n: nat)
    requires ValidConfig(c) && n <= |script| && Replay(c, script[..n]).phase.Done?
    ensures Replay(c, script).phase == Replay(c, script[..n]).phase
    decreases |script| - n
  {
    if n == |script| {
      assert script[..n] == script;
    } else {
      ReplaySnoc(c, script, n);
      DoneSteps(c, Replay(c, script[..n]), script[n]);
      hide Enabled, Apply, Replay;
      DoneStays(c, script, n + 1);
    }
  }

  lemma DoneSteps(c: Config, s: State, a: Action)
    requires ValidConfig(c) && s.phase.Done?
    ensures Enabled(c, s, a) ==> Apply(c, s, a).phase == s.phase
  {
  }

  lemma PreparingSteps(c: Config, s: State, a: Action)
    requires ValidConfig(c) && s.phase.Preparing? && Enabled(c, s, a) && !Ambient(a)
    ensures Apply(c, s, a) == s.(phase := Apply(c, s, a).phase)
    ensures match a
            case PrepareFails(e) => Apply(c, s, a).phase == Done(Err(e))
            case PrepareTimesOut => Apply(c, s, a).phase == Done(Err(TRANSFER_TIMEOUT))
            case SeeCancellation => Apply(c, s, a).phase == Done(Err(CANCELLED))
            case Prepared =>
              Apply(c, s, a).phase == (if PartCount(|c.source|, c.options.partSize).Err? then Done(Err(INVALID_SOURCE))
                                       else if s.cancelled then Done(Err(CANCELLED)) else Creating)
            case _ => false
  {
  }

  lemma CreatingSteps(c: Config, s: State, a: Action)
    requires ValidConfig(c) && s.phase.Creating? && Enabled(c, s, a) && !Ambient(a)
    ensures match a
            case CreateFails(e) => Apply(c, s, a) == s.(phase := Done(Err(e)))
            case CreateSucceeds => Apply(c, s, a) == LoopHead(c, Log(s, Created))
            case _ => false
  {
  }

  lemma CompletingSteps(c: Config, s: State, a: Action)
    requires ValidConfig(c) && s.phase.Completing? && Enabled(c, s, a) && !Ambient(a)
    ensures match a
            case CompleteSucceeds(bodies) => Apply(c, s, a) == Log(s, Completed).(phase := Done(Ok(Flatten(bodies))))
            case CompleteFails(e) =>
              Apply(c, s, a) == BeginAbort(Log(s, CompletionFailed(e)), e, None, s.now + c.cleanupTimeout)
            case SeeCancellation =>
              Apply(c, s, a)
              == BeginAbort(Log(s, CompletionFailed(CANCELLED)), CANCELLED, None, s.now + c.cleanupTimeout)
            case _ => false
  {
  }

  // ----- what can happen while the worker waits in each phase ----------------------------------------

  /** What may happen does not depend on the log, or on parts given up. */
  lemma SameChoices(c: Config, s: State, t: State, a: Action)
    requires s == t.(abandoned := s.abandoned, log := s.log)
    ensures Enabled(c, s, a) == Enabled(c, t, a)
  {
  }

  lemma AmbientSteps(c: Config, s: State, a: Action)
    requires ValidConfig(c) && Ambient(a)
    ensures a.ServerStores? && Enabled(c, s, a) ==> a.number >= 1
    ensures Enabled(c, s, a) ==>
              Apply(c, s, a) == match a
                case Advance(to) => s.(now := to)
                case Cancel => s.(cancelled := true)
                case ServerStores(k, etag) => s.(versions := s.versions + {Version(k, etag, Body(c, k))})
                case _ => s
  {
  }

  lemma LoopHeadStarts(c: Config, s: State)
    requires ValidConfig(c) && |s.pending| < c.options.concurrency && s.next <= Count(c)
    ensures LoopHead(c, Start(s)) == LoopHead(c, s)
  {
  }

  lemma LoopHeadWaits(c: Config, s: State)
    requires ValidConfig(c) && !(|s.pending| < c.options.concurrency && s.next <= Count(c))
    ensures LoopHead(c, s) == if s.pending == {} then BeginCompletion(c, s) else s.(phase := Uploading)
  {
  }

  lemma QuiescingSteps(c: Config, s: State, a: Action)
    requires ValidConfig(c) && s.phase.Quiescing? && Enabled(c, s, a) && !Ambient(a)
    ensures match a
            case Settles(k) =>
              && k in s.pending
              && Apply(c, s, a) == (if s.pending - {k} == {}
                                    then BeginAbort(Settle(s, k), s.phase.primary, None, s.phase.cleanupDeadline)
                                    else Settle(s, k))
            case SettleTimesOut =>
              Apply(c, s, a) == BeginAbort(s.(abandoned := s.pending, pending := {}), s.phase.primary,
                                           Some(QUIESCE_TIMEOUT), s.phase.cleanupDeadline)
            case _ => false
  {
  }

  lemma UploadingSteps(c: Config, s: State, a: Action)
    requires ValidConfig(c) && s.phase.Uploading? && Enabled(c, s, a) && !Ambient(a)
    ensures match a
            case PartDone(k, etag) =>
              && k in s.pending
              && Apply(c, s, a) == (match Record(s.upload, CompletedPart(k, etag))
                                    case Ok(parts) => LoopHead(c, Settle(s, k).(upload := parts))
                                    case Err(_) => BeginQuiesce(c, Log(Settle(s, k), Defect), BOOKKEEPING))
            case PartFails(k, e) => k in s.pending && Apply(c, s, a) == BeginQuiesce(c, Settle(s, k), e)
            case SeeCancellation => Apply(c, s, a) == BeginQuiesce(c, s, CANCELLED)
            case DeadlineFires => Apply(c, s, a) == BeginQuiesce(c, s, TRANSFER_TIMEOUT)
            case SchedulerLosesPart => Apply(c, s, a) == BeginQuiesce(c, Log(s, Defect), BOOKKEEPING)
            case _ => false
  {
  }

  lemma AbortingSteps(c: Config, s: State, a: Action)
    requires ValidConfig(c) && s.phase.Aborting? && Enabled(c, s, a) && !Ambient(a)
    ensures a.AbortReturns?
    ensures Apply(c, s, a).phase ==
            Done(Err(AttachCleanupFailure(s.phase.primary, CleanupFailure(a.failure, s.phase.quiesce))))
    ensures Apply(c, s, a) == Log(s, AbortSettled(a.failure)).(phase := Apply(c, s, a).phase)
  {
  }
}
