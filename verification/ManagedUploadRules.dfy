/**
  What each thing that can happen does to a managed upload, said in terms of the log, the clock and the
  request, and proved of every step of every run.
 */
module ManagedUploadRules {
  import opened Wire
  import opened MultipartParts
  import opened ManagedUpload
  import opened ManagedUploadSafety
  import opened ManagedUploadRun
  import opened ManagedUploadProgress

  // ----- numbers and bytes -----------------------------------------------------------------

  /** The source needs exactly n parts, and n is a number of parts that S3 accepts. */
  ghost predicate NeedsParts(c: Config, n: nat) {
    1 <= n <= 10_000 && (n - 1) * c.options.partSize < |c.source| <= n * c.options.partSize
  }

  /** The bytes of part k: the k-th stretch of `part_size` bytes, the last one as long as the source lasts. */
  function Stretch(c: Config, k: nat): Text
    requires k >= 1
  {
    var size := c.options.partSize;
    c.source[Min((k - 1) * size, |c.source|)..Min(k * size, |c.source|)]
  }

  function Between(from: nat, end: nat): (r: set<nat>)
    ensures forall k :: k in r <==> from <= k < end
    decreases end - from
  {
    if from < end then {from} + Between(from + 1, end) else {}
  }

  function Starts(from: nat, to: nat): (ops: seq<Operation>)
    requires from <= to
    ensures |ops| == to - from
  {
    seq(to - from, i requires 0 <= i < to - from => PartStarted(from + i))
  }

  // ----- the rules ---------------------------------------------------------------------------

  /** An error of the worker itself, by its kind. */
  ghost predicate OfKind(e: S3Error, category: Category) {
    e.category == category && e.cleanup == None
  }

  /** Parts are started in order until the window is full or none is left; then the run waits or completes. */
  ghost predicate Scheduled(c: Config, s: State, t: State) {
    && 1 <= s.next <= t.next
    && t.pending == s.pending + Between(s.next, t.next)
    && (|t.pending| >= c.options.concurrency || NeedsParts(c, t.next - 1))
    && (t.next > s.next ==> |t.pending| <= c.options.concurrency)
    && (if t.pending == {} then
          t == s.(phase := Completing, next := t.next, pending := {},
                  log := s.log + Starts(s.next, t.next) + [CompleteSent(s.upload)])
        else
          t == s.(phase := Uploading, next := t.next, pending := t.pending, log := s.log + Starts(s.next, t.next)))
  }

  /** The abort is sent now, and has until the deadline. */
  ghost predicate Aborted(s: State, primary: S3Error, quiesce: Option<S3Error>, deadline: nat, t: State) {
    t == s.(phase := Aborting(primary, quiesce, deadline), log := s.log + [AbortSent(s.now, deadline)])
  }

  /** The part phase is over: parts in flight get half of the cleanup time; without any the abort goes out at once. */
  ghost predicate Quiesced(c: Config, s: State, primary: S3Error, t: State) {
    var failed := s.(log := s.log + [PartPhaseFailed(primary)]);
    if s.pending == {} then Aborted(failed, primary, None, s.now + c.cleanupTimeout, t)
    else t == failed.(phase := Quiescing(primary, s.now + c.cleanupTimeout / 2, s.now + c.cleanupTimeout))
  }

  function Settled(s: State, k: nat): State {
    s.(pending := s.pending - {k}, log := s.log + [PartSettled(k)])
  }

  /** The returned error: the primary, carrying what went wrong while cleaning up. */
  ghost predicate Reported(primary: S3Error, abort: Option<S3Error>, quiesce: Option<S3Error>, e: S3Error) {
    && e.category == primary.category && e.message == primary.message
    && (abort.None? && quiesce.None? ==> e.cleanup == primary.cleanup)
    && (abort.Some? && quiesce.None? ==> e.cleanup == abort)
    && (abort.None? && quiesce.Some? ==> e.cleanup == quiesce)
    && (abort.Some? && quiesce.Some? ==>
          && e.cleanup.Some? && e.cleanup.value.cleanup == quiesce
          && e.cleanup.value.category == abort.value.category && e.cleanup.value.message == abort.value.message)
  }

  ghost predicate PreparationRule(c: Config, s: State, a: Action, t: State) {
    match a
    case PrepareFails(e) => t == s.(phase := Done(Err(e)))
    case PrepareTimesOut => Failed(s, Timeout, t)
    case SeeCancellation => Failed(s, Cancellation, t)
    case Prepared =>
      if !exists n :: NeedsParts(c, n) then Failed(s, Configuration, t)
      else if s.cancelled then Failed(s, Cancellation, t)
      else t == s.(phase := Creating)
    case _ => false
  }

  ghost predicate Failed(s: State, category: Category, t: State) {
    t.phase.Done? && t.phase.outcome.Err? && OfKind(t.phase.outcome.error, category) && t == s.(phase := t.phase)
  }

  /** While parts are in flight. */
  ghost predicate UploadingRule(c: Config, s: State, a: Action, t: State) {
    match a
    case PartDone(k, etag) =>
      && Ascending(t.upload) && |t.upload| == |s.upload| + 1
      && (forall p :: p in t.upload <==> p in s.upload || p == CompletedPart(k, etag))
      && Scheduled(c, Settled(s, k).(upload := t.upload), t)
    case PartFails(k, e) => Quiesced(c, Settled(s, k), e, t)
    case SeeCancellation => exists e :: OfKind(e, Cancellation) && Quiesced(c, s, e, t)
    case DeadlineFires => exists e :: OfKind(e, Timeout) && Quiesced(c, s, e, t)
    case _ => false
  }

  ghost predicate QuiescingRule(s: State, a: Action, t: State)
    requires s.phase.Quiescing?
  {
    match a
    case Settles(k) =>
      var u := Settled(s, k);
      if u.pending == {} then Aborted(u, s.phase.primary, None, s.phase.cleanupDeadline, t) else t == u
    case SettleTimesOut =>
      exists e :: OfKind(e, Timeout) && Aborted(s.(abandoned := s.pending, pending := {}), s.phase.primary, Some(e),
                                                s.phase.cleanupDeadline, t)
    case _ => false
  }

  ghost predicate CompletingRule(c: Config, s: State, a: Action, t: State) {
    match a
    case CompleteSucceeds(bodies) =>
      t == s.(phase := Done(Ok(Flatten(bodies))), log := s.log + [Completed])
    case CompleteFails(e) =>
      Aborted(s.(log := s.log + [CompletionFailed(e)]), e, None, s.now + c.cleanupTimeout, t)
    case SeeCancellation =>
      exists e :: OfKind(e, Cancellation)
                  && Aborted(s.(log := s.log + [CompletionFailed(e)]), e, None, s.now + c.cleanupTimeout, t)
    case _ => false
  }

  ghost predicate AbortingRule(s: State, a: Action, t: State)
    requires s.phase.Aborting?
  {
    && a.AbortReturns?
    && t.phase.Done? && t.phase.outcome.Err?
    && t == s.(phase := t.phase, log := s.log + [AbortSettled(a.failure)])
    && Reported(s.phase.primary, a.failure, s.phase.quiesce, t.phase.outcome.error)
  }

  ghost predicate Rules(c: Config, s: State, a: Action, t: State) {
    match a
    case Advance(to) => t == s.(now := to)
    case Cancel => t == s.(cancelled := true)
    case ServerStores(k, etag) => k >= 1 && t == s.(versions := s.versions + {Version(k, etag, Stretch(c, k))})
    case _ =>
      match s.phase
      case Preparing => PreparationRule(c, s, a, t)
      case Creating =>
        (match a
         case CreateFails(e) => t == s.(phase := Done(Err(e)))
         case CreateSucceeds => Scheduled(c, s.(log := s.log + [Created]), t)
         case _ => false)
      case Uploading => UploadingRule(c, s, a, t)
      case Quiescing(_, _, _) => QuiescingRule(s, a, t)
      case Completing => CompletingRule(c, s, a, t)
      case Aborting(_, _, _) => AbortingRule(s, a, t)
      case Done(_) => false
  }

  // ----- the plan -------------------------------------------------------------------------------

  /** `part_count` finds the number of parts that the source needs, and fails exactly when there is none. */
  lemma CountExactly(c: Config)
    requires ValidConfig(c)
    ensures Planned(c).Ok? <==> exists n :: NeedsParts(c, n)
    ensures Planned(c).Ok? ==> NeedsParts(c, Count(c))
    ensures Planned(c) == Err(EmptySource) <==> c.source == []
    ensures Planned(c) == Err(TooManyParts) <==> |c.source| > 10_000 * c.options.partSize
  {
    var size := c.options.partSize;
    var n := DivCeil(|c.source|, size);
    DivCeilBounds(|c.source|, size, n);
    hide DivCeil;
    if |c.source| > 0 {
      forall m | NeedsParts(c, m) ensures m == n {
        if m < n {
          MulMonotone(m, n - 1, size);
        } else if n < m {
          MulMonotone(n, m - 1, size);
        }
      }
      if n <= 10_000 {
        assert NeedsParts(c, n);
        MulMonotone(n, 10_000, size);
      } else {
        MulMonotone(10_000, n - 1, size);
      }
    }
  }

  /** No other number of parts would do. */
  lemma CountIsUnique(c: Config, n: nat)
    requires ValidConfig(c) && NeedsParts(c, n)
    ensures Planned(c) == Ok(n)
  {
    CountExactly(c);
    hide Planned;
    var m := Count(c);
    if m < n {
      MulMonotone(m, n - 1, c.options.partSize);
    } else if n < m {
      MulMonotone(n, m - 1, c.options.partSize);
    }
  }

  lemma BodyIsStretch(c: Config, k: nat)
    requires ValidConfig(c) && k >= 1
    ensures Body(c, k) == Stretch(c, k)
  {
  }

  // ----- scheduling --------------------------------------------------------------------------------

  lemma StartsMore(from: nat, to: nat)
    requires from < to
    ensures Starts(from, to) == [PartStarted(from)] + Starts(from + 1, to)
  {
  }

  /** What the scheduling loop has done when it stops. */
  ghost predicate Filled(c: Config, s: State, t: State)
    requires ValidConfig(c)
  {
    && s.next <= t.next <= Count(c) + 1
    && t == s.(next := t.next, pending := s.pending + Between(s.next, t.next), log := s.log + Starts(s.next, t.next))
    && (|t.pending| >= c.options.concurrency || t.next == Count(c) + 1)
    && (t.next > s.next ==> |t.pending| <= c.options.concurrency)
  }

  lemma FilledAtOnce(c: Config, s: State)
    requires ValidConfig(c) && s.next <= Count(c) + 1
    requires !(|s.pending| < c.options.concurrency && s.next <= Count(c))
    ensures Filled(c, s, s)
  {
    hide Count;
    assert s.pending + Between(s.next, s.next) == s.pending;
    assert s.log + Starts(s.next, s.next) == s.log;
  }

  lemma FilledMore(c: Config, s: State, t: State)
    requires ValidConfig(c) && |s.pending| < c.options.concurrency && s.next <= Count(c) && Filled(c, Start(s), t)
    ensures Filled(c, s, t)
  {
    hide Count, Starts, Between;
    StartedLog(s.log, s.next, t.next);
    StartedPending(s.pending, s.next, t.next);
    if t.next == s.next + 1 {
      assert t.pending == Start(s).pending;
      PendingGrows(s);
    }
  }

  lemma StartedLog(log: seq<Operation>, from: nat, end: nat)
    requires from < end
    ensures log + [PartStarted(from)] + Starts(from + 1, end) == log + Starts(from, end)
  {
    StartsMore(from, end);
    hide Starts;
  }

  lemma StartedPending(pending: set<nat>, from: nat, end: nat)
    requires from < end
    ensures pending + {from} + Between(from + 1, end) == pending + Between(from, end)
    ensures from + 1 == end ==> pending + Between(from, end) == pending + {from}
  {
  }


  lemma PendingGrows(s: State)
    ensures |Start(s).pending| <= |s.pending| + 1
  {
  }

  lemma {:induction false} ScheduleExactly(c: Config, s: State)
    requires ValidConfig(c) && s.next <= Count(c) + 1
    ensures Filled(c, s, Schedule(c, s))
    decreases Count(c) + 1 - s.next
  {
    hide Count, Filled;
    if |s.pending| < c.options.concurrency && s.next <= Count(c) {
      ScheduleExactly(c, Start(s));
      FilledMore(c, s, Schedule(c, Start(s)));
    } else {
      FilledAtOnce(c, s);
    }
  }

  /** The head of the loop, from books in order. */
  lemma LoopHeadExactly(c: Config, s: State)
    requires ValidConfig(c) && Books(c, s) && Flowing(s)
    ensures Scheduled(c, s, LoopHead(c, s))
  {
    hide Books, Flowing, Count, Planned, Validate, Schedule, LoopHead, NeedsParts, Filled, Scheduled;
    BooksNext(c, s);
    ScheduleExactly(c, s);
    ScheduleKeeps(c, s);
    CountExactly(c);
    var t := Schedule(c, s);
    if t.pending == {} {
      ScheduledAll(c, t);
      CompletionIsAccepted(c, t);
      HeadCompletes(c, s);
    } else {
      HeadWaits(c, s);
    }
  }

  lemma HeadWaits(c: Config, s: State)
    requires ValidConfig(c) && s.next >= 1 && Filled(c, s, Schedule(c, s)) && NeedsParts(c, Count(c))
    requires Schedule(c, s).pending != {}
    ensures Scheduled(c, s, LoopHead(c, s))
  {
    hide Count, Schedule, NeedsParts, Starts, Between, BeginCompletion;
  }

  lemma HeadCompletes(c: Config, s: State)
    requires ValidConfig(c) && s.next >= 1 && Filled(c, s, Schedule(c, s)) && NeedsParts(c, Count(c))
    requires Schedule(c, s).pending == {} && Schedule(c, s).next == Count(c) + 1
    requires Validate(Schedule(c, s).upload) == None
    ensures Scheduled(c, s, LoopHead(c, s))
  {
    hide Count, Schedule, NeedsParts, Starts, Between, Validate, BeginAbort;
  }

  lemma ScheduledAll(c: Config, t: State)
    requires ValidConfig(c) && t.pending == {}
    requires |t.pending| == c.options.concurrency || t.next == Count(c) + 1
    ensures t.next == Count(c) + 1
  {
    hide Count;
    assert |t.pending| == 0;
  }

  lemma BooksNext(c: Config, s: State)
    requires ValidConfig(c) && Books(c, s)
    ensures Planned(c).Ok? && 1 <= s.next <= Count(c) + 1
  {
    hide Observe, Ascending, Stored, Tally, Numbers, UpTo, Planned, Count;
  }

  // ----- the steps -----------------------------------------------------------------------------------

  lemma QuiesceExactly(c: Config, s: State, primary: S3Error)
    ensures Quiesced(c, s, primary, BeginQuiesce(c, s, primary))
  {
  }

  lemma CreationExactly(c: Config, s: State)
    requires ValidConfig(c) && Inv(c, s) && s.phase.Creating?
    ensures Scheduled(c, Log(s, Created), LoopHead(c, Log(s, Created)))
  {
    ObserveSnoc(s.log, Created);
    var t := Log(s, Created);
    assert Observe(t.log) == NOTHING.(created := true);
    assert UpTo(0) == {};
    assert Numbers([]) == {};
    hide LoopHead, Scheduled;
    LoopHeadExactly(c, t);
  }

  lemma PartDoneExactly(c: Config, s: State, k: nat, etag: string)
    requires ValidConfig(c) && Inv(c, s) && s.phase.Uploading? && k in s.pending
    requires Accepted(s.versions, CompletedPart(k, etag))
    ensures Record(s.upload, CompletedPart(k, etag)).Ok?
    ensures var parts := Record(s.upload, CompletedPart(k, etag)).value;
            var t := LoopHead(c, Settle(s, k).(upload := parts));
            && UploadingRule(c, s, PartDone(k, etag), t)
  {
    hide Inv, Record, LoopHead, Accepted, Books, Flowing, Scheduled, Ascending;
    var part := CompletedPart(k, etag);
    UploadingIsAscending(c, s);
    UploadingBooks(c, s);
    PartIsNew(c, s, k, etag);
    PartIsRecorded(c, s, part);
    RecordMeaning(s.upload, part);
    var parts := Record(s.upload, part).value;
    PartDoneKeeps(c, s, k, etag);
    LoopHeadExactly(c, Settle(s, k).(upload := parts));
  }

  lemma UploadingBooks(c: Config, s: State)
    requires ValidConfig(c) && Inv(c, s) && s.phase.Uploading?
    ensures Books(c, s) && Flowing(s)
  {
    hide Books, Flowing;
  }

  lemma UploadingIsAscending(c: Config, s: State)
    requires ValidConfig(c) && Inv(c, s) && s.phase.Uploading?
    ensures Ascending(s.upload)
  {
    hide Observe, Stored, Tally, Numbers, UpTo, Planned, Count;
  }

  lemma PreparationExactly(c: Config, s: State, a: Action)
    requires ValidConfig(c) && s.phase.Preparing? && Enabled(c, s, a) && !Ambient(a)
    ensures PreparationRule(c, s, a, Apply(c, s, a))
  {
    hide Planned, NeedsParts, LoopHead, BeginQuiesce, BeginAbort;
    CountExactly(c);
  }

  /** Steps of the clock, the caller and the server. */
  lemma AmbientExactly(c: Config, s: State, a: Action)
    requires ValidConfig(c) && Enabled(c, s, a) && Ambient(a)
    ensures Rules(c, s, a, Apply(c, s, a))
  {
    hide Body, Stretch, LoopHead, BeginQuiesce, BeginAbort;
    if a.ServerStores? {
      BodyIsStretch(c, a.number);
    }
  }

  lemma UploadingExactly(c: Config, s: State, a: Action)
    requires ValidConfig(c) && Inv(c, s) && s.phase.Uploading? && Enabled(c, s, a) && !Ambient(a)
    ensures UploadingRule(c, s, a, Apply(c, s, a))
  {
    hide Inv, Enabled, Apply, LoopHead, BeginQuiesce, Scheduled, Quiesced, Record, Ascending, Accepted;
    UploadingSteps(c, s, a);
    match a {
      case PartDone(k, etag) =>
        PartDoneIsAccepted(c, s, k, etag);
        PartDoneExactly(c, s, k, etag);
      case PartFails(k, e) =>
        QuiesceExactly(c, Settle(s, k), e);
        SettleIsSettled(s, k);
      case SeeCancellation =>
        QuiesceExactly(c, s, CANCELLED);
        assert OfKind(CANCELLED, Cancellation);
      case DeadlineFires =>
        QuiesceExactly(c, s, TRANSFER_TIMEOUT);
        assert OfKind(TRANSFER_TIMEOUT, Timeout);
      case SchedulerLosesPart =>
        PartsInFlight(c, s);
        LosesNothing(c, s);
    }
  }

  lemma PartsInFlight(c: Config, s: State)
    requires ValidConfig(c) && Inv(c, s) && s.phase.Uploading?
    ensures s.pending != {}
  {
    hide Observe, Stored, Tally, Numbers, UpTo, Planned, Count, Ascending;
  }

  lemma LosesNothing(c: Config, s: State)
    requires s.pending != {}
    ensures !Enabled(c, s, SchedulerLosesPart)
  {
  }

  lemma SettleIsSettled(s: State, k: nat)
    ensures Settle(s, k) == Settled(s, k)
  {
  }

  lemma QuiescingExactly(c: Config, s: State, a: Action)
    requires ValidConfig(c) && s.phase.Quiescing? && Enabled(c, s, a) && !Ambient(a)
    ensures QuiescingRule(s, a, Apply(c, s, a))
  {
    hide Enabled, Apply;
    QuiescingSteps(c, s, a);
    if a.SettleTimesOut? {
      assert OfKind(QUIESCE_TIMEOUT, Timeout);
      assert Aborted(s.(abandoned := s.pending, pending := {}), s.phase.primary, Some(QUIESCE_TIMEOUT),
                     s.phase.cleanupDeadline, Apply(c, s, a));
    }
  }

  lemma CompletingExactly(c: Config, s: State, a: Action)
    requires ValidConfig(c) && s.phase.Completing? && Enabled(c, s, a) && !Ambient(a)
    ensures CompletingRule(c, s, a, Apply(c, s, a))
  {
    hide Enabled, Apply, Flatten;
    CompletingSteps(c, s, a);
    if a.SeeCancellation? {
      assert OfKind(CANCELLED, Cancellation);
      assert Aborted(s.(log := s.log + [CompletionFailed(CANCELLED)]), CANCELLED, None, s.now + c.cleanupTimeout,
                     Apply(c, s, a));
    }
  }

  lemma AbortingExactly(c: Config, s: State, a: Action)
    requires ValidConfig(c) && s.phase.Aborting? && Enabled(c, s, a) && !Ambient(a)
    ensures AbortingRule(s, a, Apply(c, s, a))
  {
    hide Enabled, Apply;
    AbortingSteps(c, s, a);
  }

  lemma CreatingExactly(c: Config, s: State, a: Action)
    requires ValidConfig(c) && Inv(c, s) && s.phase.Creating? && Enabled(c, s, a) && !Ambient(a)
    ensures Rules(c, s, a, Apply(c, s, a))
  {
    hide Inv, Enabled, Apply, LoopHead, Scheduled;
    CreatingSteps(c, s, a);
    if a.CreateSucceeds? {
      CreationExactly(c, s);
      assert Log(s, Created) == s.(log := s.log + [Created]);
    }
  }

  lemma StepExactly(c: Config, s: State, a: Action)
    requires ValidConfig(c) && Inv(c, s) && Enabled(c, s, a)
    ensures Rules(c, s, a, Apply(c, s, a))
  {
    hide Inv, Enabled, Apply, PreparationRule, UploadingRule, QuiescingRule, CompletingRule, AbortingRule, Scheduled;
    if Ambient(a) {
      AmbientExactly(c, s, a);
    } else {
      match s.phase {
        case Preparing => PreparationExactly(c, s, a);
        case Creating => CreatingExactly(c, s, a);
        case Uploading => UploadingExactly(c, s, a);
        case Quiescing(_, _, _) => QuiescingExactly(c, s, a);
        case Completing => CompletingExactly(c, s, a);
        case Aborting(_, _, _) => AbortingExactly(c, s, a);
        case Done(_) => DoneIsQuiet(c, s, a);
      }
    }
  }

  /** Every step of every run follows the rules. */
  lemma {:induction false} EveryStepFollowsTheRules(c: Config, actions: seq<Action>, last: Action)
    requires ValidConfig(c) && Exec(c, actions).Some? && Exec(c, actions + [last]).Some?
    ensures Rules(c, Exec(c, actions).value, last, Exec(c, actions + [last]).value)
  {
    hide Inv, Enabled, Apply, Rules;
    RunKeeps(c, actions);
    assert (actions + [last])[..|actions|] == actions;
    StepExactly(c, Exec(c, actions).value, last);
  }

  /** A timer can always be waited for, and then it fires. */
  lemma {:induction false} TimersCanFire(c: Config, actions: seq<Action>)
    requires ValidConfig(c) && Exec(c, actions).Some?
    ensures var s := Exec(c, actions).value;
            && (s.phase.Preparing? ==> Enabled(c, s, Advance(c.transferDeadline))
                                       && Enabled(c, s.(now := c.transferDeadline), PrepareTimesOut))
            && (s.phase.Uploading? ==> Enabled(c, s, Advance(c.transferDeadline))
                                       && Enabled(c, s.(now := c.transferDeadline), DeadlineFires))
            && (s.phase.Quiescing? ==> Enabled(c, s, Advance(s.phase.settleUntil))
                                       && Enabled(c, s.(now := s.phase.settleUntil), SettleTimesOut))
  {
    hide Exec, Inv, Enabled;
    RunKeeps(c, actions);
    TimersOf(c, Exec(c, actions).value);
  }

  lemma TimersOf(c: Config, s: State)
    requires ValidConfig(c) && Inv(c, s)
    ensures s.phase.Preparing? ==> Enabled(c, s, Advance(c.transferDeadline))
                                   && Enabled(c, s.(now := c.transferDeadline), PrepareTimesOut)
    ensures s.phase.Uploading? ==> Enabled(c, s, Advance(c.transferDeadline))
                                   && Enabled(c, s.(now := c.transferDeadline), DeadlineFires)
    ensures s.phase.Quiescing? ==> Enabled(c, s, Advance(s.phase.settleUntil))
                                   && Enabled(c, s.(now := s.phase.settleUntil), SettleTimesOut)
  {
    hide Observe, Stored, Tally, Numbers, UpTo, Planned, Count, Ascending, Flowing, Undecided, Books, AbortedFor;
  }

  /** Whatever the caller, the requests and the server may do is possible while the run waits for it. */
  lemma AnythingCanHappen(c: Config, s: State, k: nat, etag: string, e: S3Error)
    ensures Enabled(c, s, Cancel) && (1 <= k < s.next ==> Enabled(c, s, ServerStores(k, etag)))
    ensures s.phase.Preparing? ==> Enabled(c, s, Prepared) && Enabled(c, s, PrepareFails(e))
    ensures s.phase.Creating? ==> Enabled(c, s, CreateSucceeds) && Enabled(c, s, CreateFails(e))
    ensures s.phase.Uploading? && k in s.pending ==>
              && Enabled(c, s, PartFails(k, e))
              && (Enabled(c, s, PartDone(k, etag)) <==> Accepted(s.versions, CompletedPart(k, etag)))
    ensures s.phase.Quiescing? && k in s.pending ==> Enabled(c, s, Settles(k))
    ensures s.phase.Completing? ==> Enabled(c, s, CompleteFails(e))
    ensures s.cancelled && (s.phase.Preparing? || s.phase.Uploading? || s.phase.Completing?) ==>
              Enabled(c, s, SeeCancellation)
    ensures s.phase.Aborting? ==> Enabled(c, s, AbortReturns(None)) && Enabled(c, s, AbortReturns(Some(e)))
  {
  }
}
