/** What every run of the managed upload keeps, under every interleaving. */
module ManagedUploadSafety {
  import opened Wire
  import opened MultipartParts
  import opened ManagedUpload

  // ----- an observer of the log -----------------------------------------------------------

  /** What the log of a run says so far. */
  datatype Summary = Summary(
    created: bool,
    started: set<nat>,
    settled: set<nat>,
    failed: Option<S3Error>,
    submitted: Option<seq<CompletedPart>>,
    refused: Option<S3Error>,
    completions: nat,
    aborts: nat,
    abortError: Option<Option<S3Error>>,
    abortAt: nat,
    abortDeadline: nat,
    startedTwice: bool,
    workAfterFailure: bool,
    abortedUnsettled: bool,
    defect: bool)

  const NOTHING := Summary(false, {}, {}, None, None, None, 0, 0, None, 0, 0, false, false, false, false)

  function Note(m: Summary, op: Operation): Summary {
    match op
    case Created => m.(created := true)
    case PartStarted(k) =>
      m.(started := m.started + {k},
         startedTwice := m.startedTwice || k in m.started,
         workAfterFailure := m.workAfterFailure || m.failed.Some?)
    case PartSettled(k) => m.(settled := m.settled + {k})
    case PartPhaseFailed(e) => m.(failed := Some(e))
    case CompleteSent(parts) =>
      m.(submitted := Some(parts), workAfterFailure := m.workAfterFailure || m.failed.Some?)
    case CompletionFailed(e) => m.(refused := Some(e))
    case Completed => m.(completions := m.completions + 1)
    case AbortSent(at, deadline) =>
      m.(aborts := m.aborts + 1, abortAt := at, abortDeadline := deadline,
         abortedUnsettled := m.abortedUnsettled || m.started != m.settled)
    case AbortSettled(e) => m.(abortError := Some(e))
    case Defect => m.(defect := true)
  }

  function Observe(log: seq<Operation>): Summary {
    if log == [] then NOTHING else Note(Observe(log[..|log| - 1]), log[|log| - 1])
  }

  lemma {:induction false} ObserveSnoc(log: seq<Operation>, op: Operation)
    ensures Observe(log + [op]) == Note(Observe(log), op)
  {
    assert (log + [op])[..|log|] == log;
  }

  // ----- the invariant ------------------------------------------------------------------------

  /** Nothing has gone wrong and nothing final has been sent. */
  ghost predicate Undecided(m: Summary) {
    && m.failed == None && m.submitted == None && m.refused == None
    && m.completions == 0 && m.aborts == 0 && m.abortError == None && !m.abortedUnsettled
    && Sound(m)
  }

  ghost predicate Sound(m: Summary) {
    !m.startedTwice && !m.workAfterFailure && !m.defect
  }

  /** In flight, recorded, abandoned and settled parts account for exactly the parts started. */
  ghost predicate Tally(
    started: set<nat>, pending: set<nat>, recorded: set<nat>, abandoned: set<nat>, settled: set<nat>)
  {
    && pending !! recorded
    && pending !! abandoned
    && pending + recorded + abandoned <= started
    && settled == started - pending - abandoned
  }

  /** Part bookkeeping, from the creation of the upload on. */
  ghost predicate Books(c: Config, s: State)
    requires ValidConfig(c)
  {
    var m := Observe(s.log);
    && Planned(c).Ok?
    && 1 <= s.next <= Count(c) + 1
    && Ascending(s.upload)
    && m.created
    && m.started == UpTo(s.next - 1)
    && Tally(m.started, s.pending, Numbers(s.upload), s.abandoned, m.settled)
    && |s.pending| <= c.options.concurrency
    && Stored(c, s.next, s.versions, s.upload)
  }

  /** The server holds only bytes of this source, and every recorded part. */
  ghost predicate Stored(c: Config, next: nat, versions: set<Version>, upload: seq<CompletedPart>)
    requires ValidConfig(c)
  {
    && (forall v :: v in versions ==> 1 <= v.number < next && v.body == Body(c, v.number))
    && (forall p :: p in upload ==> Accepted(versions, p))
  }

  ghost predicate Accepted(versions: set<Version>, p: CompletedPart) {
    exists v :: v in versions && v.number == p.number && v.etag == p.etag
  }

  /** Nothing is lost: every started part is in flight or recorded. */
  ghost predicate Flowing(s: State) {
    && s.pending + Numbers(s.upload) == Observe(s.log).started
    && s.abandoned == {}
    && Undecided(Observe(s.log))
  }

  /** The abort request has been sent, once, for `primary`. */
  ghost predicate AbortedFor(c: Config, m: Summary, primary: S3Error, quiesce: Option<S3Error>, abandoned: set<nat>) {
    && m.aborts == 1 && m.completions == 0 && Sound(m)
    && (m.failed == Some(primary) || (m.failed == None && m.refused == Some(primary)))
    && (m.failed.Some? ==> m.submitted == None && m.refused == None)
    && m.abortAt <= c.transferDeadline + c.cleanupTimeout / 2
    && m.abortDeadline <= c.transferDeadline + c.cleanupTimeout
    && 2 * (m.abortDeadline - m.abortAt) >= c.cleanupTimeout
    && quiesce == (if abandoned == {} then None else Some(QUIESCE_TIMEOUT))
    && (m.abortedUnsettled <==> abandoned != {})
  }

  ghost predicate Inv(c: Config, s: State)
    requires ValidConfig(c)
  {
    var m := Observe(s.log);
    match s.phase
    case Preparing => s.log == [] && s.next == 1 && s.pending == {} && s.upload == [] && s.abandoned == {}
                      && s.versions == {} && s.now <= c.transferDeadline
    case Creating => s.log == [] && s.next == 1 && s.pending == {} && s.upload == [] && s.abandoned == {}
                     && s.versions == {} && s.now <= c.transferDeadline && Planned(c).Ok?
    case Uploading =>
      && Books(c, s) && Flowing(s) && s.now <= c.transferDeadline
      && s.pending != {}
      && (|s.pending| == c.options.concurrency || s.next == Count(c) + 1)
    case Quiescing(primary, settleUntil, deadline) =>
      && Books(c, s) && s.abandoned == {} && s.pending != {}
      && Undecided(m.(failed := None)) && m.failed == Some(primary)
      && s.now <= settleUntil <= c.transferDeadline + c.cleanupTimeout / 2
      && deadline - settleUntil == c.cleanupTimeout - c.cleanupTimeout / 2
    case Completing =>
      && Books(c, s) && s.abandoned == {} && s.pending == {} && s.now <= c.transferDeadline
      && s.next == Count(c) + 1 && Numbers(s.upload) == UpTo(Count(c))
      && m.submitted == Some(s.upload) && Undecided(m.(submitted := None))
    case Aborting(primary, quiesce, deadline) =>
      && Books(c, s) && s.pending == {}
      && AbortedFor(c, m, primary, quiesce, s.abandoned) && m.abortError == None
      && m.abortDeadline == deadline && s.now <= deadline
    case Done(outcome) =>
      if !m.created then outcome.Err? && s.log == [] && s.next == 1 && s.pending == {} && s.now <= c.transferDeadline
      else
        && Books(c, s) && s.pending == {}
        && s.now <= c.transferDeadline + c.cleanupTimeout
        && match outcome
           case Ok(assembled) =>
             && assembled == c.source && m.completions == 1 && m.aborts == 0 && Sound(m) && m.failed == None
             && m.submitted == Some(s.upload) && Numbers(s.upload) == UpTo(Count(c)) && s.next == Count(c) + 1
           case Err(e) =>
             exists primary, quiesce, abort ::
               && AbortedFor(c, m, primary, quiesce, s.abandoned)
               && m.abortError == Some(abort)
               && e == AttachCleanupFailure(primary, CleanupFailure(abort, quiesce))
  }

  // ----- steps ----------------------------------------------------------------------------------

  lemma TallySettle(
    started: set<nat>, pending: set<nat>, recorded: set<nat>, abandoned: set<nat>, settled: set<nat>, k: nat)
    requires Tally(started, pending, recorded, abandoned, settled) && k in pending
    ensures Tally(started, pending - {k}, recorded, abandoned, settled + {k})
    ensures Tally(started, pending - {k}, recorded + {k}, abandoned, settled + {k})
    ensures pending + recorded == (pending - {k}) + (recorded + {k})
    ensures |pending - {k}| < |pending|
  {
  }

  lemma TallyStart(
    started: set<nat>, pending: set<nat>, recorded: set<nat>, abandoned: set<nat>, settled: set<nat>, k: nat)
    requires Tally(started, pending, recorded, abandoned, settled) && k !in started
    ensures Tally(started + {k}, pending + {k}, recorded, abandoned, settled)
    ensures pending + recorded == started ==> (pending + {k}) + recorded == started + {k}
    ensures |pending + {k}| == |pending| + 1
  {
    assert k !in pending;
  }

  lemma TallyAbandon(started: set<nat>, pending: set<nat>, recorded: set<nat>, settled: set<nat>)
    requires Tally(started, pending, recorded, {}, settled)
    ensures Tally(started, {}, recorded, pending, settled)
  {
  }

  lemma TallyQuiet(started: set<nat>, recorded: set<nat>, abandoned: set<nat>, settled: set<nat>)
    requires Tally(started, {}, recorded, abandoned, settled)
    ensures started == settled <==> abandoned == {}
  {
    forall k | k in abandoned ensures started != settled {
      assert k in started && k !in settled;
    }
    if abandoned == {} {
      assert started == settled;
    }
  }

  lemma SettleKeeps(c: Config, s: State, k: nat)
    requires ValidConfig(c) && Books(c, s) && k in s.pending
    ensures Books(c, Settle(s, k))
    ensures Observe(Settle(s, k).log) == Observe(s.log).(settled := Observe(s.log).settled + {k})
  {
    hide Observe, Numbers, Ascending, Stored, UpTo, Tally, Planned, Count;
    ObserveSnoc(s.log, PartSettled(k));
    var m := Observe(s.log);
    TallySettle(m.started, s.pending, Numbers(s.upload), s.abandoned, m.settled, k);
  }

  lemma UpToNext(n: nat)
    requires n >= 1
    ensures UpTo(n) == UpTo(n - 1) + {n} && n !in UpTo(n - 1)
  {
  }

  function Start(s: State): State {
    Log(s, PartStarted(s.next)).(pending := s.pending + {s.next}, next := s.next + 1)
  }

  lemma StoredStart(c: Config, next: nat, versions: set<Version>, upload: seq<CompletedPart>)
    requires ValidConfig(c) && Stored(c, next, versions, upload)
    ensures Stored(c, next + 1, versions, upload)
  {
    hide Body, Accepted;
  }

  lemma StartIsObserved(c: Config, s: State)
    requires ValidConfig(c) && Books(c, s) && Flowing(s)
    ensures var m, m' := Observe(s.log), Observe(Start(s).log);
            && m' == m.(started := m.started + {s.next})
            && m'.started == UpTo(s.next)
            && s.next !in m.started
  {
    hide Observe, Numbers, Ascending, Stored, UpTo, Tally, Planned, Count;
    ObserveSnoc(s.log, PartStarted(s.next));
    UpToNext(s.next);
  }

  lemma StartPart(c: Config, s: State)
    requires ValidConfig(c) && Books(c, s) && Flowing(s)
    requires |s.pending| < c.options.concurrency && s.next <= Count(c)
    ensures Books(c, Start(s)) && Flowing(Start(s))
  {
    hide Observe, Numbers, Ascending, Stored, UpTo, Tally, Planned, Count, Note;
    StartIsObserved(c, s);
    var m := Observe(s.log);
    TallyStart(m.started, s.pending, Numbers(s.upload), s.abandoned, m.settled, s.next);
    StoredStart(c, s.next, s.versions, s.upload);
    assert Start(s).upload == s.upload && Start(s).versions == s.versions;
  }

  lemma {:induction false} ScheduleKeeps(c: Config, s: State)
    requires ValidConfig(c) && Books(c, s) && Flowing(s)
    ensures var t := Schedule(c, s);
            && Books(c, t) && Flowing(t)
            && (|t.pending| == c.options.concurrency || t.next == Count(c) + 1)
            && t.upload == s.upload && t.now == s.now
    decreases Count(c) + 1 - s.next
  {
    hide Observe, Numbers, Ascending, Stored, UpTo, Tally, Planned, Count, Undecided;
    if |s.pending| < c.options.concurrency && s.next <= Count(c) {
      StartPart(c, s);
      ScheduleKeeps(c, Start(s));
    }
  }

  lemma PlanIsNotEmpty(c: Config)
    requires ValidConfig(c) && Planned(c).Ok?
    ensures Count(c) >= 1
  {
    DivCeilBounds(|c.source|, c.options.partSize, DivCeil(|c.source|, c.options.partSize));
  }

  /** With nothing in flight and no part left to start, the recorded parts are the whole plan. */
  lemma CompletionIsAccepted(c: Config, s: State)
    requires ValidConfig(c) && Books(c, s) && Flowing(s)
    requires s.pending == {} && s.next == Count(c) + 1
    ensures Numbers(s.upload) == UpTo(Count(c)) && Validate(s.upload) == None
  {
    PlanIsNotEmpty(c);
    hide Observe, Ascending, Stored, Tally, Planned, Count, Undecided;
    ValidateMeaning(s.upload);
    assert s.pending + Numbers(s.upload) == Numbers(s.upload);
    assert 1 in Numbers(s.upload);
  }

  lemma LoopHeadKeeps(c: Config, s: State)
    requires ValidConfig(c) && Books(c, s) && Flowing(s) && s.now <= c.transferDeadline
    ensures Inv(c, LoopHead(c, s))
    ensures LoopHead(c, s).upload == s.upload && (LoopHead(c, s).phase.Uploading? || LoopHead(c, s).phase.Completing?)
  {
    hide Observe, Numbers, Ascending, Stored, UpTo, Tally, Planned, Count, Schedule, Validate;
    ScheduleKeeps(c, s);
    var t := Schedule(c, s);
    if t.pending == {} {
      assert |t.pending| == 0;
      CompletionIsAccepted(c, t);
      ObserveSnoc(t.log, CompleteSent(t.upload));
    }
  }

  /** Sending the abort, from any state whose parts are all settled or abandoned. */
  lemma BeginAbortKeeps(c: Config, s: State, primary: S3Error, quiesce: Option<S3Error>, deadline: nat)
    requires ValidConfig(c) && Books(c, s) && s.pending == {}
    requires var m := Observe(s.log);
             && m.aborts == 0 && m.completions == 0 && Sound(m) && m.abortError == None && !m.abortedUnsettled
             && (m.failed == Some(primary) || (m.failed == None && m.refused == Some(primary)))
             && (m.failed.Some? ==> m.submitted == None && m.refused == None)
    requires s.now <= c.transferDeadline + c.cleanupTimeout / 2 && s.now <= deadline
    requires deadline <= c.transferDeadline + c.cleanupTimeout && 2 * (deadline - s.now) >= c.cleanupTimeout
    requires quiesce == if s.abandoned == {} then None else Some(QUIESCE_TIMEOUT)
    ensures Inv(c, BeginAbort(s, primary, quiesce, deadline))
  {
    hide Observe, Numbers, Ascending, Stored, UpTo, Tally, Planned, Count;
    var m := Observe(s.log);
    ObserveSnoc(s.log, AbortSent(s.now, deadline));
    TallyQuiet(m.started, Numbers(s.upload), s.abandoned, m.settled);
  }

  /** Leaving the part phase: nothing is in flight, or the in-flight parts get half the cleanup time. */
  lemma BeginQuiesceKeeps(c: Config, s: State, primary: S3Error)
    requires ValidConfig(c) && Books(c, s) && s.abandoned == {} && Undecided(Observe(s.log))
    requires s.now <= c.transferDeadline
    ensures Inv(c, BeginQuiesce(c, s, primary))
  {
    hide Observe, Numbers, Ascending, Stored, UpTo, Tally, Planned, Count;
    ObserveSnoc(s.log, PartPhaseFailed(primary));
    if s.pending == {} {
      BeginAbortKeeps(c, Log(s, PartPhaseFailed(primary)), primary, None, s.now + c.cleanupTimeout);
    }
  }

  /** A refused completion is aborted with a fresh cleanup deadline. */
  lemma RefusedKeeps(c: Config, s: State, primary: S3Error)
    requires ValidConfig(c) && Inv(c, s) && s.phase.Completing?
    ensures Inv(c, BeginAbort(Log(s, CompletionFailed(primary)), primary, None, s.now + c.cleanupTimeout))
  {
    hide Observe, Numbers, Ascending, Stored, UpTo, Tally, Planned, Count;
    ObserveSnoc(s.log, CompletionFailed(primary));
    BeginAbortKeeps(c, Log(s, CompletionFailed(primary)), primary, None, s.now + c.cleanupTimeout);
  }

  lemma StoredRecord(c: Config, next: nat, versions: set<Version>, upload: seq<CompletedPart>,
                     part: CompletedPart, upload': seq<CompletedPart>)
    requires ValidConfig(c) && Stored(c, next, versions, upload) && Accepted(versions, part)
    requires forall p :: p in upload' <==> p in upload || p == part
    ensures Stored(c, next, versions, upload')
  {
    hide Body, Accepted;
  }

  lemma PartIsNew(c: Config, s: State, k: nat, etag: string)
    requires ValidConfig(c) && Books(c, s) && k in s.pending
    ensures Record(s.upload, CompletedPart(k, etag)).Ok?
  {
    hide Observe, Numbers, Ascending, Stored, UpTo, Planned, Count, Record;
    RecordMeaning(s.upload, CompletedPart(k, etag));
  }

  lemma PartIsRecorded(c: Config, s: State, part: CompletedPart)
    requires ValidConfig(c) && Books(c, s) && Flowing(s) && part.number in s.pending
    requires Accepted(s.versions, part) && Record(s.upload, part).Ok?
    ensures var t := Settle(s, part.number).(upload := Record(s.upload, part).value);
            Books(c, t) && Flowing(t)
  {
    hide Observe, Numbers, Ascending, Stored, UpTo, Tally, Planned, Count, Record, Accepted;
    RecordMeaning(s.upload, part);
    var parts := Record(s.upload, part).value;
    var m := Observe(s.log);
    SettleKeeps(c, s, part.number);
    TallySettle(m.started, s.pending, Numbers(s.upload), s.abandoned, m.settled, part.number);
    StoredRecord(c, s.next, s.versions, s.upload, part, parts);
  }

  /** A finished part is never a duplicate: it moves from in flight to recorded. */
  lemma PartDoneKeeps(c: Config, s: State, k: nat, etag: string)
    requires ValidConfig(c) && Inv(c, s) && s.phase.Uploading? && k in s.pending
    requires Accepted(s.versions, CompletedPart(k, etag))
    ensures Record(s.upload, CompletedPart(k, etag)).Ok?
    ensures var parts := Record(s.upload, CompletedPart(k, etag)).value;
            var t := LoopHead(c, Settle(s, k).(upload := parts));
            && Inv(c, t) && t.upload == parts && (t.phase.Uploading? || t.phase.Completing?)
  {
    hide Record, LoopHead, Accepted, Books, Flowing;
    PartIsNew(c, s, k, etag);
    PartIsRecorded(c, s, CompletedPart(k, etag));
    LoopHeadKeeps(c, Settle(s, k).(upload := Record(s.upload, CompletedPart(k, etag)).value));
  }

  lemma SettlesKeeps(c: Config, s: State, k: nat)
    requires ValidConfig(c) && Inv(c, s) && s.phase.Quiescing? && k in s.pending
    ensures Inv(c, Apply(c, s, Settles(k)))
  {
    hide Observe, Numbers, Ascending, Stored, UpTo, Tally, Planned, Count;
    SettleKeeps(c, s, k);
    var t := Settle(s, k);
    if t.pending == {} {
      BeginAbortKeeps(c, t, s.phase.primary, None, s.phase.cleanupDeadline);
    }
  }

  lemma SettleTimesOutKeeps(c: Config, s: State)
    requires ValidConfig(c) && Inv(c, s) && s.phase.Quiescing?
    ensures Inv(c, BeginAbort(s.(abandoned := s.pending, pending := {}), s.phase.primary, Some(QUIESCE_TIMEOUT),
                              s.phase.cleanupDeadline))
  {
    hide Observe, Numbers, Ascending, Stored, UpTo, Tally, Planned, Count;
    var m := Observe(s.log);
    TallyAbandon(m.started, s.pending, Numbers(s.upload), m.settled);
    BeginAbortKeeps(c, s.(abandoned := s.pending, pending := {}), s.phase.primary, Some(QUIESCE_TIMEOUT),
                    s.phase.cleanupDeadline);
  }

  ghost predicate Assembly(versions: set<Version>, upload: seq<CompletedPart>, bodies: seq<Text>) {
    && |bodies| == |upload|
    && forall i :: 0 <= i < |bodies| ==> Version(upload[i].number, upload[i].etag, bodies[i]) in versions
  }

  lemma StoredBody(c: Config, next: nat, versions: set<Version>, upload: seq<CompletedPart>, v: Version)
    requires ValidConfig(c) && Stored(c, next, versions, upload) && v in versions
    ensures v.number >= 1 && v.body == Body(c, v.number)
  {
  }

  /** What the server may assemble from the submitted list is the source, whichever versions it picks. */
  lemma AssembledIsSource(c: Config, next: nat, versions: set<Version>, upload: seq<CompletedPart>, bodies: seq<Text>)
    requires ValidConfig(c) && Planned(c).Ok? && Stored(c, next, versions, upload)
    requires Ascending(upload) && Numbers(upload) == UpTo(Count(c))
    requires Assembly(versions, upload, bodies)
    ensures Flatten(bodies) == c.source
  {
    hide Ascending, Numbers, UpTo, PartCount, Flatten, Stored, Part;
    AscendingRange(upload, Count(c));
    forall i | 0 <= i < |bodies| ensures bodies[i] == Part(c.source, c.options.partSize, i + 1) {
      StoredBody(c, next, versions, upload, Version(upload[i].number, upload[i].etag, bodies[i]));
    }
    PartsAreTheSource(c.source, c.options.partSize, bodies);
  }

  lemma CompleteSucceedsKeeps(c: Config, s: State, bodies: seq<Text>)
    requires ValidConfig(c) && Inv(c, s) && s.phase.Completing? && Enabled(c, s, CompleteSucceeds(bodies))
    ensures Inv(c, Apply(c, s, CompleteSucceeds(bodies)))
  {
    hide Observe, Numbers, Ascending, Stored, UpTo, Tally, Planned, Count, Flatten;
    assert Assembly(s.versions, s.upload, bodies);
    AssembledIsSource(c, s.next, s.versions, s.upload, bodies);
    ObserveSnoc(s.log, Completed);
  }

  lemma AbortReturnsKeeps(c: Config, s: State, error: Option<S3Error>)
    requires ValidConfig(c) && Inv(c, s) && s.phase.Aborting?
    ensures Inv(c, Apply(c, s, AbortReturns(error)))
  {
    hide Observe, Numbers, Ascending, Stored, UpTo, Tally, Planned, Count, CleanupFailure, AttachCleanupFailure;
    ObserveSnoc(s.log, AbortSettled(error));
    var t := Apply(c, s, AbortReturns(error));
    assert AbortedFor(c, Observe(t.log), s.phase.primary, s.phase.quiesce, t.abandoned);
  }

  lemma CreateSucceedsKeeps(c: Config, s: State)
    requires ValidConfig(c) && Inv(c, s) && s.phase.Creating?
    ensures Inv(c, LoopHead(c, Log(s, Created)))
    ensures var t := LoopHead(c, Log(s, Created));
            t.phase.Uploading? || t.phase.Completing?
  {
    ObserveSnoc(s.log, Created);
    var t := Log(s, Created);
    assert Observe(t.log) == NOTHING.(created := true);
    assert UpTo(0) == {};
    assert Numbers([]) == {};
    LoopHeadKeeps(c, t);
  }

  lemma StoredMore(c: Config, next: nat, versions: set<Version>, upload: seq<CompletedPart>, v: Version)
    requires ValidConfig(c) && Stored(c, next, versions, upload)
    requires 1 <= v.number < next && v.body == Body(c, v.number)
    ensures Stored(c, next, versions + {v}, upload)
  {
    hide Body;
    forall p | p in upload ensures Accepted(versions + {v}, p) {
      assert Accepted(versions, p);
      var w :| w in versions && w.number == p.number && w.etag == p.etag;
      assert w in versions + {v};
    }
  }

  lemma ServerStoresKeeps(c: Config, s: State, k: nat, etag: string)
    requires ValidConfig(c) && Inv(c, s) && 1 <= k < s.next
    ensures Inv(c, Apply(c, s, ServerStores(k, etag)))
  {
    hide Observe, Numbers, Ascending, Stored, UpTo, Tally, Planned, Count, Body, AttachCleanupFailure, CleanupFailure;
    StoredMore(c, s.next, s.versions, s.upload, Version(k, etag, Body(c, k)));
  }

  /** Time, the caller, and the actions that end a run before it has an upload ID. */
  lemma QuietKeeps(c: Config, s: State, a: Action)
    requires ValidConfig(c) && Inv(c, s) && Enabled(c, s, a)
    requires a.Advance? || a.Cancel? || a.PrepareFails? || a.PrepareTimesOut? || a.Prepared? || a.CreateFails?
             || (a.SeeCancellation? && s.phase.Preparing?)
    ensures Inv(c, Apply(c, s, a))
  {
    ObserveNothing();
    hide Observe, Numbers, Ascending, Stored, UpTo, Tally, Count, AttachCleanupFailure, CleanupFailure;
  }

  lemma ObserveNothing()
    ensures Observe([]) == NOTHING
  {
  }

  lemma UploadingFails(c: Config, s: State, a: Action)
    requires ValidConfig(c) && Inv(c, s) && s.phase.Uploading? && Enabled(c, s, a)
    requires a.PartFails? || a.DeadlineFires? || a.SeeCancellation?
    ensures Inv(c, Apply(c, s, a))
  {
    hide Observe, Numbers, Ascending, Stored, UpTo, Tally, Planned, Count, BeginQuiesce;
    match a
    case PartFails(k, e) =>
      SettleKeeps(c, s, k);
      BeginQuiesceKeeps(c, Settle(s, k), e);
    case DeadlineFires =>
      BeginQuiesceKeeps(c, s, TRANSFER_TIMEOUT);
    case SeeCancellation =>
      BeginQuiesceKeeps(c, s, CANCELLED);
  }

  /** Every action keeps the invariant. */
  lemma StepKeeps(c: Config, s: State, a: Action)
    requires ValidConfig(c) && Inv(c, s) && Enabled(c, s, a)
    ensures Inv(c, Apply(c, s, a))
  {
    hide Inv, LoopHead, BeginQuiesce, BeginAbort, Record, Flatten;
    match a
    case CreateSucceeds => CreateSucceedsKeeps(c, s);
    case ServerStores(k, etag) => ServerStoresKeeps(c, s, k, etag);
    case PartDone(k, etag) => PartDoneKeeps(c, s, k, etag);
    case PartFails(_, _) => UploadingFails(c, s, a);
    case DeadlineFires => UploadingFails(c, s, a);
    case SeeCancellation =>
      if s.phase.Preparing? {
        QuietKeeps(c, s, a);
      } else if s.phase.Uploading? {
        UploadingFails(c, s, a);
      } else {
        RefusedKeeps(c, s, CANCELLED);
      }
    case SchedulerLosesPart => InFlightWhileUploading(c, s);
    case Settles(k) => SettlesKeeps(c, s, k);
    case SettleTimesOut => SettleTimesOutKeeps(c, s);
    case CompleteSucceeds(bodies) => CompleteSucceedsKeeps(c, s, bodies);
    case CompleteFails(e) => RefusedKeeps(c, s, e);
    case AbortReturns(error) => AbortReturnsKeeps(c, s, error);
    case _ => QuietKeeps(c, s, a);
  }

  lemma InFlightWhileUploading(c: Config, s: State)
    requires ValidConfig(c) && Inv(c, s) && s.phase.Uploading?
    ensures s.pending != {}
  {
  }

  /** The invariant holds in every reachable state. */
  lemma {:induction false} RunKeeps(c: Config, actions: seq<Action>)
    requires ValidConfig(c) && Exec(c, actions).Some?
    ensures Inv(c, Exec(c, actions).value)
  {
    if actions == [] {
    } else {
      hide Inv, Apply, Enabled;
      RunKeeps(c, actions[..|actions| - 1]);
      StepKeeps(c, Exec(c, actions[..|actions| - 1]).value, actions[|actions| - 1]);
    }
  }

  // ----- what the summary says about the log itself ---------------------------------------------

  lemma NoteSets(m: Summary, op: Operation, k: nat)
    ensures k in Note(m, op).started <==> k in m.started || op == PartStarted(k)
    ensures k in Note(m, op).settled <==> k in m.settled || op == PartSettled(k)
  {
  }

  lemma {:induction false} ObserveSets(log: seq<Operation>, k: nat)
    ensures k in Observe(log).started <==> PartStarted(k) in log
    ensures k in Observe(log).settled <==> PartSettled(k) in log
  {
    hide Observe, Note;
    if log == [] {
      ObserveNothing();
    } else {
      var front, last := log[..|log| - 1], log[|log| - 1];
      assert log == front + [last];
      ObserveSnoc(front, last);
      ObserveSets(front, k);
      NoteSets(Observe(front), last, k);
    }
  }

  lemma {:induction false} ObserveFailure(log: seq<Operation>, i: nat)
    requires i < |log| && log[i].PartPhaseFailed?
    ensures Observe(log).failed.Some?
  {
    hide Observe;
    var front, last := log[..|log| - 1], log[|log| - 1];
    assert log == front + [last];
    ObserveSnoc(front, last);
    if i < |log| - 1 {
      ObserveFailure(front, i);
    }
  }

  /** Without `workAfterFailure`, nothing is started or submitted after a failure. */
  lemma {:induction false} WorkAfterFailureMeaning(log: seq<Operation>, i: nat, j: nat)
    requires !Observe(log).workAfterFailure
    requires i < j < |log| && log[i].PartPhaseFailed?
    ensures !log[j].PartStarted? && !log[j].CompleteSent?
  {
    hide Observe;
    var front, last := log[..|log| - 1], log[|log| - 1];
    assert log == front + [last];
    ObserveSnoc(front, last);
    if j == |log| - 1 {
      ObserveFailure(front, i);
    } else {
      WorkAfterFailureMeaning(front, i, j);
    }
  }

  /** Without `abortedUnsettled`, every part started before an abort had settled before it. */
  lemma {:induction false} AbortedUnsettledMeaning(log: seq<Operation>, i: nat, k: nat)
    requires !Observe(log).abortedUnsettled
    requires i < |log| && log[i].AbortSent? && PartStarted(k) in log[..i]
    ensures PartSettled(k) in log[..i]
  {
    hide Observe;
    var front, last := log[..|log| - 1], log[|log| - 1];
    assert log == front + [last];
    ObserveSnoc(front, last);
    if i == |log| - 1 {
      assert log[..i] == front;
      ObserveSets(front, k);
    } else {
      assert log[..i] == front[..i];
      AbortedUnsettledMeaning(front, i, k);
    }
  }

  // ----- the results --------------------------------------------------------------------------------

  /**
    A successful run assembled exactly the source, from a completion listing parts 1..n in
    order, and never sent an abort; whatever order parts finished in.
   */
  lemma {:induction false} SuccessIsTheSource(c: Config, actions: seq<Action>)
    requires ValidConfig(c) && Exec(c, actions).Some?
    requires Exec(c, actions).value.phase.Done? && Exec(c, actions).value.phase.outcome.Ok?
    ensures var s := Exec(c, actions).value;
            var m := Observe(s.log);
            && s.phase.outcome.value == c.source
            && m.completions == 1 && m.aborts == 0
            && m.submitted.Some?
            && |m.submitted.value| == Count(c)
            && (forall i :: 0 <= i < Count(c) ==> m.submitted.value[i].number == i + 1)
  {
    RunKeeps(c, actions);
    var s := Exec(c, actions).value;
    hide Observe, Tally, Stored, Exec;
    AscendingRange(s.upload, Count(c));
  }

  /** The bytes of a set of in-flight parts. */
  ghost function BytesInFlight(c: Config, parts: set<nat>): nat
    requires ValidConfig(c) && 0 !in parts
  {
    if parts == {} then 0
    else
      var k :| k in parts;
      |Body(c, k)| + BytesInFlight(c, parts - {k})
  }

  lemma {:induction false} BytesInFlightBound(c: Config, parts: set<nat>)
    requires ValidConfig(c) && 0 !in parts
    ensures BytesInFlight(c, parts) <= |parts| * c.options.partSize
  {
    if parts != {} {
      var k :| k in parts && BytesInFlight(c, parts) == |Body(c, k)| + BytesInFlight(c, parts - {k});
      hide Body, BytesInFlight;
      BytesInFlightBound(c, parts - {k});
      PartIsBounded(c, k);
      OneMore(|parts - {k}|, c.options.partSize);
    }
  }

  /** The bound is reached: a full window of full parts holds exactly that many bytes. */
  lemma {:induction false} FullWindow(c: Config, parts: set<nat>)
    requires ValidConfig(c) && 0 !in parts && |parts| == c.options.concurrency
    requires forall k :: k in parts ==> |Body(c, k)| == c.options.partSize
    ensures BytesInFlight(c, parts) == MaximumBufferedBytes(c.options)
  {
    hide Body, BytesInFlight;
    FullParts(c, parts);
  }

  lemma {:induction false} FullParts(c: Config, parts: set<nat>)
    requires ValidConfig(c) && 0 !in parts && forall k :: k in parts ==> |Body(c, k)| == c.options.partSize
    ensures BytesInFlight(c, parts) == |parts| * c.options.partSize
  {
    hide Body;
    if parts != {} {
      var k :| k in parts && BytesInFlight(c, parts) == |Body(c, k)| + BytesInFlight(c, parts - {k});
      var rest := parts - {k};
      FullParts(c, rest);
      assert |parts| == |rest| + 1;
      OneMore(|rest|, c.options.partSize);
    }
  }

  lemma OneMore(n: nat, size: nat)
    ensures (n + 1) * size == n * size + size
  {
  }

  lemma PartIsBounded(c: Config, k: nat)
    requires ValidConfig(c) && k >= 1
    ensures |Body(c, k)| <= c.options.partSize
  {
    assert k * c.options.partSize == (k - 1) * c.options.partSize + c.options.partSize;
  }

  /**
    In every reachable state the window is bounded in parts and in bytes; while parts are being
    uploaded, those started are exactly the disjoint union of those in flight and those recorded.
   */
  lemma {:induction false} InFlightIsBounded(c: Config, actions: seq<Action>)
    requires ValidConfig(c) && Exec(c, actions).Some?
    ensures var s := Exec(c, actions).value;
            && |s.pending| <= c.options.concurrency
            && 0 !in s.pending
            && BytesInFlight(c, s.pending) <= MaximumBufferedBytes(c.options)
            && (s.phase.Uploading? ==>
                  && s.next >= 1 && s.pending !! Numbers(s.upload)
                  && s.pending + Numbers(s.upload) == UpTo(s.next - 1)
                  && (|s.pending| == c.options.concurrency || s.next == Count(c) + 1))
  {
    hide Exec, Inv, Numbers, UpTo, Count, BytesInFlight;
    RunKeeps(c, actions);
    var s := Exec(c, actions).value;
    WindowIsBounded(c, s);
    if s.phase.Uploading? {
      WindowIsAccounted(c, s);
    }
    BytesInFlightBound(c, s.pending);
    MulMonotone(|s.pending|, c.options.concurrency, c.options.partSize);
  }

  lemma WindowIsBounded(c: Config, s: State)
    requires ValidConfig(c) && Inv(c, s)
    ensures |s.pending| <= c.options.concurrency && 0 !in s.pending
  {
    hide Observe, Stored, Numbers, Ascending, Planned, Count, AbortedFor, Undecided, Sound;
  }

  lemma WindowIsAccounted(c: Config, s: State)
    requires ValidConfig(c) && Inv(c, s) && s.phase.Uploading?
    ensures s.next >= 1 && s.pending !! Numbers(s.upload)
    ensures s.pending + Numbers(s.upload) == UpTo(s.next - 1)
    ensures |s.pending| == c.options.concurrency || s.next == Count(c) + 1
  {
    hide Observe, Stored, Numbers, Ascending, Planned, Count, UpTo, Undecided;
  }

  /** The duplicate-part, lost-part and rejected-completion branches are never taken. */
  lemma {:induction false} NoDefect(c: Config, actions: seq<Action>)
    requires ValidConfig(c) && Exec(c, actions).Some?
    ensures !Observe(Exec(c, actions).value.log).defect
    ensures !Observe(Exec(c, actions).value.log).startedTwice
  {
    RunKeeps(c, actions);
    ObserveNothing();
  }

  /** Once the server has issued an upload ID, a finished run has completed it or aborted it exactly once. */
  lemma {:induction false} CompletedOrAbortedOnce(c: Config, actions: seq<Action>)
    requires ValidConfig(c) && Exec(c, actions).Some? && Exec(c, actions).value.phase.Done?
    ensures var s := Exec(c, actions).value;
            var m := Observe(s.log);
            && (m.created && s.phase.outcome.Ok? ==> m.completions == 1 && m.aborts == 0)
            && (m.created && s.phase.outcome.Err? ==> m.completions == 0 && m.aborts == 1 && m.abortError.Some?)
            && (!m.created ==> s.phase.outcome.Err? && s.log == [])
  {
    RunKeeps(c, actions);
  }

  /** After the part phase fails, no part is started and no completion is sent, ever. */
  lemma {:induction false} NoWorkAfterFailure(c: Config, actions: seq<Action>, i: nat, j: nat)
    requires ValidConfig(c) && Exec(c, actions).Some?
    requires i < j < |Exec(c, actions).value.log| && Exec(c, actions).value.log[i].PartPhaseFailed?
    ensures var op := Exec(c, actions).value.log[j];
            !op.PartStarted? && !op.CompleteSent?
  {
    RunKeeps(c, actions);
    ObserveNothing();
    hide Exec;
    WorkAfterFailureMeaning(Exec(c, actions).value.log, i, j);
  }

  /** A part was started and never settled. */
  ghost predicate Unsettled(log: seq<Operation>) {
    exists k :: PartStarted(k) in log && PartSettled(k) !in log
  }

  /** The timeout that stands for parts that did not settle in time. */
  ghost predicate IsQuiesceTimeout(e: S3Error) {
    && e.category == Timeout && e.cleanup == None
    && e.message == "multipart cleanup could not quiesce in-flight part requests"
  }

  /**
    What a run reports when it fails after the upload was created, from its log alone: the error that ended
    the part phase or the completion; attached to it the error of the abort, or the quiesce timeout if a part
    never settled, or the abort's error with that timeout attached in turn; and nothing without either.
   */
  ghost predicate ReportedFrom(log: seq<Operation>, e: S3Error) {
    exists primary: S3Error, abort: Option<S3Error> ::
      && (PartPhaseFailed(primary) in log || CompletionFailed(primary) in log)
      && AbortSettled(abort) in log
      && e == primary.(cleanup := e.cleanup)
      && (if Unsettled(log) then
            && e.cleanup.Some?
            && (abort.None? ==> IsQuiesceTimeout(e.cleanup.value))
            && (abort.Some? ==>
                  && e.cleanup.value == abort.value.(cleanup := e.cleanup.value.cleanup)
                  && e.cleanup.value.cleanup.Some? && IsQuiesceTimeout(e.cleanup.value.cleanup.value))
          else e.cleanup == if abort.Some? then abort else primary.cleanup)
  }

  lemma NoteErrors(m: Summary, op: Operation)
    ensures Note(m, op).failed == if op.PartPhaseFailed? then Some(op.primary) else m.failed
    ensures Note(m, op).refused == if op.CompletionFailed? then Some(op.primary) else m.refused
    ensures Note(m, op).abortError == if op.AbortSettled? then Some(op.error) else m.abortError
  {
  }

  lemma {:induction false} ObserveErrors(log: seq<Operation>)
    ensures Observe(log).failed.Some? ==> PartPhaseFailed(Observe(log).failed.value) in log
    ensures Observe(log).refused.Some? ==> CompletionFailed(Observe(log).refused.value) in log
    ensures Observe(log).abortError.Some? ==> AbortSettled(Observe(log).abortError.value) in log
  {
    hide Observe, Note;
    if log == [] {
      ObserveNothing();
    } else {
      var front, last := log[..|log| - 1], log[|log| - 1];
      assert log == front + [last];
      ObserveSnoc(front, last);
      NoteErrors(Observe(front), last);
      ObserveErrors(front);
    }
  }

  lemma UnsettledIsAbandoned(c: Config, s: State)
    requires ValidConfig(c) && Books(c, s) && s.pending == {}
    ensures Unsettled(s.log) <==> s.abandoned != {}
  {
    hide Observe, Ascending, Stored, Numbers, UpTo, Planned, Count;
    var m := Observe(s.log);
    if s.abandoned != {} {
      var k :| k in s.abandoned;
      ObserveSets(s.log, k);
    }
    forall k | PartStarted(k) in s.log && PartSettled(k) !in s.log ensures k in s.abandoned {
      ObserveSets(s.log, k);
    }
  }

  lemma CleanupExactly(primary: S3Error, abort: Option<S3Error>, quiesce: Option<S3Error>)
    ensures var e := AttachCleanupFailure(primary, CleanupFailure(abort, quiesce));
            && e == primary.(cleanup := e.cleanup)
            && (quiesce.None? ==> e.cleanup == if abort.Some? then abort else primary.cleanup)
            && (quiesce.Some? ==>
                  && e.cleanup.Some?
                  && (abort.None? ==> e.cleanup == quiesce)
                  && (abort.Some? ==> e.cleanup.value == abort.value.(cleanup := quiesce)))
  {
  }

  lemma FailedState(c: Config, s: State)
    requires ValidConfig(c) && Inv(c, s) && s.phase.Done? && s.phase.outcome.Err? && Observe(s.log).created
    ensures Books(c, s) && s.pending == {}
    ensures exists primary, quiesce, abort ::
              && AbortedFor(c, Observe(s.log), primary, quiesce, s.abandoned)
              && Observe(s.log).abortError == Some(abort)
              && s.phase.outcome.error == AttachCleanupFailure(primary, CleanupFailure(abort, quiesce))
  {
    hide Observe, Books, AbortedFor, AttachCleanupFailure, CleanupFailure;
  }

  lemma {:induction false} FailureReport(c: Config, actions: seq<Action>)
    requires ValidConfig(c) && Exec(c, actions).Some?
    requires Exec(c, actions).value.phase.Done? && Exec(c, actions).value.phase.outcome.Err?
    requires Observe(Exec(c, actions).value.log).created
    ensures var s := Exec(c, actions).value;
            && ReportedFrom(s.log, s.phase.outcome.error)
            && (s.phase.outcome.error.cleanup == None ==>
                  && AbortSettled(None) in s.log
                  && forall i, k :: 0 <= i < |s.log| && s.log[i].AbortSent? && PartStarted(k) in s.log[..i]
                                    ==> PartSettled(k) in s.log[..i])
  {
    hide Observe, Exec, Inv, Books, AttachCleanupFailure, CleanupFailure, Unsettled;
    RunKeeps(c, actions);
    var s := Exec(c, actions).value;
    var m, e := Observe(s.log), s.phase.outcome.error;
    FailedState(c, s);
    var primary, quiesce, abort :|
      && AbortedFor(c, m, primary, quiesce, s.abandoned)
      && m.abortError == Some(abort)
      && e == AttachCleanupFailure(primary, CleanupFailure(abort, quiesce));
    UnsettledIsAbandoned(c, s);
    ObserveErrors(s.log);
    CleanupExactly(primary, abort, quiesce);
    if e.cleanup == None {
      forall i, k | 0 <= i < |s.log| && s.log[i].AbortSent? && PartStarted(k) in s.log[..i]
        ensures PartSettled(k) in s.log[..i]
      {
        AbortedUnsettledMeaning(s.log, i, k);
      }
    }
  }

  /** Quiescing leaves the abort at least half the cleanup time, and the whole run is bounded in time. */
  lemma {:induction false} CleanupTime(c: Config, actions: seq<Action>)
    requires ValidConfig(c) && Exec(c, actions).Some?
    ensures var s := Exec(c, actions).value;
            var m := Observe(s.log);
            && (m.aborts > 0 ==> 2 * (m.abortDeadline - m.abortAt) >= c.cleanupTimeout)
            && (s.phase.Done? ==> s.now <= c.transferDeadline + c.cleanupTimeout)
  {
    RunKeeps(c, actions);
    ObserveNothing();
  }
}
