/**
  The managed multipart upload of `src/client/multipart_upload.rs` as a state machine.
  One action is one thing the scheduler, the server, the clock or the caller does; every
  interleaving is a sequence of actions.
 */
module ManagedUpload {
  import opened Wire
  import opened MultipartParts

  // ----- errors ------------------------------------------------------------------------

  datatype Category = Configuration | Timeout | Cancellation | Integrity | Remote(code: nat)

  datatype S3Error = S3Error(category: Category, message: string, cleanup: Option<S3Error>)

  const CANCELLED := S3Error(Cancellation, "multipart upload was cancelled", None)
  const TRANSFER_TIMEOUT := S3Error(Timeout, "managed multipart upload exceeded its transfer deadline", None)
  const QUIESCE_TIMEOUT := S3Error(Timeout, "multipart cleanup could not quiesce in-flight part requests", None)
  const INVALID_SOURCE := S3Error(Configuration, "multipart source cannot be split", None)
  const BOOKKEEPING := S3Error(Integrity, "multipart bookkeeping is inconsistent", None)

  function WithCleanupFailure(primary: S3Error, cleanup: S3Error): S3Error {
    primary.(cleanup := Some(cleanup))
  }

  /** How `fail_with_abort` combines the two ways cleanup can fail; `None` is success. */
  function CleanupFailure(abort: Option<S3Error>, quiesce: Option<S3Error>): Option<S3Error> {
    match (abort, quiesce)
    case (None, None) => None
    case (Some(e), None) => Some(e)
    case (None, Some(e)) => Some(e)
    case (Some(a), Some(q)) => Some(WithCleanupFailure(a, q))
  }

  function AttachCleanupFailure(primary: S3Error, cleanup: Option<S3Error>): S3Error {
    match cleanup
    case None => primary
    case Some(e) => WithCleanupFailure(primary, e)
  }

  // ----- state --------------------------------------------------------------------------

  /** The request; `transferDeadline` counts from the start of the run, at time 0. */
  datatype Config = Config(source: Text, options: Options, transferDeadline: nat, cleanupTimeout: nat)

  predicate ValidConfig(c: Config) {
    ValidOptions(c.options) && |c.source| <= U64_MAX
  }

  function Planned(c: Config): Result<nat, PartError>
    requires ValidConfig(c)
  {
    PartCount(|c.source|, c.options.partSize)
  }

  function Count(c: Config): nat
    requires ValidConfig(c)
  {
    match Planned(c)
    case Ok(n) => n
    case Err(_) => 0
  }

  function Body(c: Config, number: nat): Text
    requires ValidConfig(c) && number >= 1
  {
    Part(c.source, c.options.partSize, number)
  }

  /** A part upload the server has accepted. */
  datatype Version = Version(number: nat, etag: string, body: Text)

  datatype Phase =
    | Preparing
    | Creating
    | Uploading
    | Quiescing(primary: S3Error, settleUntil: nat, cleanupDeadline: nat)
    | Completing
    | Aborting(primary: S3Error, quiesce: Option<S3Error>, cleanupDeadline: nat)
    | Done(outcome: Result<Text, S3Error>)

  /** What an observer of the run writes down. */
  datatype Operation =
    | Created
    | PartStarted(number: nat)
    | PartSettled(number: nat)
    | PartPhaseFailed(primary: S3Error)
    | CompleteSent(parts: seq<CompletedPart>)
    | CompletionFailed(primary: S3Error)
    | Completed
    | AbortSent(at: nat, deadline: nat)
    | AbortSettled(error: Option<S3Error>)
    | Defect

  datatype State = State(
    phase: Phase,
    now: nat,
    cancelled: bool,
    next: nat,
    pending: set<nat>,
    upload: seq<CompletedPart>,
    abandoned: set<nat>,
    versions: set<Version>,
    log: seq<Operation>)

  const INITIAL := State(Preparing, 0, false, 1, {}, [], {}, {}, [])

  datatype Action =
    | Advance(to: nat)
    | Cancel
    | PrepareFails(error: S3Error)
    | PrepareTimesOut
    | Prepared
    | CreateFails(error: S3Error)
    | CreateSucceeds
    | ServerStores(number: nat, etag: string)
    | PartDone(number: nat, etag: string)
    | PartFails(number: nat, error: S3Error)
    | SeeCancellation
    | DeadlineFires
    | SchedulerLosesPart
    | Settles(number: nat)
    | SettleTimesOut
    | CompleteSucceeds(bodies: seq<Text>)
    | CompleteFails(error: S3Error)
    | AbortReturns(failure: Option<S3Error>)

  function Log(s: State, op: Operation): State {
    s.(log := s.log + [op])
  }

  // ----- the steps of the scheduler --------------------------------------------------------

  /** `fail_with_abort`, up to its request. */
  function BeginAbort(s: State, primary: S3Error, quiesce: Option<S3Error>, deadline: nat): State {
    Log(s, AbortSent(s.now, deadline)).(phase := Aborting(primary, quiesce, deadline))
  }

  /** `quiesce_part_requests`, up to its first wait. */
  function BeginQuiesce(c: Config, s: State, primary: S3Error): State {
    var failed := Log(s, PartPhaseFailed(primary));
    if s.pending == {} then BeginAbort(failed, primary, None, s.now + c.cleanupTimeout)
    else failed.(phase := Quiescing(primary, s.now + c.cleanupTimeout / 2, s.now + c.cleanupTimeout))
  }

  /** The completion request, once every part is recorded. */
  function BeginCompletion(c: Config, s: State): State {
    match Validate(s.upload)
    case None => Log(s, CompleteSent(s.upload)).(phase := Completing)
    case Some(_) =>
      BeginAbort(Log(Log(s, Defect), CompletionFailed(BOOKKEEPING)), BOOKKEEPING, None, s.now + c.cleanupTimeout)
  }

  /** `while pending.len() < concurrency && next_part <= part_count`. */
  function Schedule(c: Config, s: State): State
    requires ValidConfig(c)
    decreases Count(c) + 1 - s.next
  {
    if |s.pending| < c.options.concurrency && s.next <= Count(c) then
      Schedule(c, Log(s, PartStarted(s.next)).(pending := s.pending + {s.next}, next := s.next + 1))
    else s
  }

  /** The head of the scheduler's loop, up to its wait. */
  function LoopHead(c: Config, s: State): State
    requires ValidConfig(c)
  {
    var t := Schedule(c, s);
    if t.pending == {} then BeginCompletion(c, t) else t.(phase := Uploading)
  }

  function Settle(s: State, number: nat): State {
    Log(s, PartSettled(number)).(pending := s.pending - {number})
  }

  predicate MayAdvance(c: Config, s: State, to: nat) {
    && s.now <= to
    && match s.phase
       case Quiescing(_, settleUntil, _) => to <= settleUntil
       case Aborting(_, _, deadline) => to <= deadline
       case Done(_) => false
       case _ => to <= c.transferDeadline
  }

  predicate Enabled(c: Config, s: State, a: Action) {
    match a
    case Advance(to) => MayAdvance(c, s, to)
    case Cancel => true
    case PrepareFails(_) => s.phase.Preparing?
    case PrepareTimesOut => s.phase.Preparing? && s.now >= c.transferDeadline
    case Prepared => s.phase.Preparing?
    case CreateFails(_) => s.phase.Creating?
    case CreateSucceeds => s.phase.Creating?
    case ServerStores(k, _) => 1 <= k < s.next
    case PartDone(k, etag) =>
      s.phase.Uploading? && k in s.pending && exists v :: v in s.versions && v.number == k && v.etag == etag
    case PartFails(k, _) => s.phase.Uploading? && k in s.pending
    case SeeCancellation => s.cancelled && (s.phase.Preparing? || s.phase.Uploading? || s.phase.Completing?)
    case DeadlineFires => s.phase.Uploading? && s.now >= c.transferDeadline
    case SchedulerLosesPart => s.phase.Uploading? && s.pending == {}
    case Settles(k) => s.phase.Quiescing? && k in s.pending
    case SettleTimesOut => s.phase.Quiescing? && s.now >= s.phase.settleUntil
    case CompleteSucceeds(bodies) =>
      && s.phase.Completing?
      && |bodies| == |s.upload|
      && forall i :: 0 <= i < |bodies| ==> Version(s.upload[i].number, s.upload[i].etag, bodies[i]) in s.versions
    case CompleteFails(_) => s.phase.Completing?
    case AbortReturns(_) => s.phase.Aborting?
  }

  function Finish(s: State, outcome: Result<Text, S3Error>): State {
    s.(phase := Done(outcome))
  }

  function Apply(c: Config, s: State, a: Action): State
    requires ValidConfig(c) && Enabled(c, s, a)
  {
    match a
    case Advance(to) => s.(now := to)
    case Cancel => s.(cancelled := true)
    case PrepareFails(e) => Finish(s, Err(e))
    case PrepareTimesOut => Finish(s, Err(TRANSFER_TIMEOUT))
    case Prepared =>
      if Planned(c).Err? then Finish(s, Err(INVALID_SOURCE))
      else if s.cancelled then Finish(s, Err(CANCELLED))
      else s.(phase := Creating)
    case CreateFails(e) => Finish(s, Err(e))
    case CreateSucceeds => LoopHead(c, Log(s, Created))
    case ServerStores(k, etag) => s.(versions := s.versions + {Version(k, etag, Body(c, k))})
    case PartDone(k, etag) =>
      var settled := Settle(s, k);
      (match Record(s.upload, CompletedPart(k, etag))
       case Ok(parts) => LoopHead(c, settled.(upload := parts))
       case Err(_) => BeginQuiesce(c, Log(settled, Defect), BOOKKEEPING))
    case PartFails(k, e) => BeginQuiesce(c, Settle(s, k), e)
    case SeeCancellation =>
      if s.phase.Preparing? then Finish(s, Err(CANCELLED))
      else if s.phase.Uploading? then BeginQuiesce(c, s, CANCELLED)
      else BeginAbort(Log(s, CompletionFailed(CANCELLED)), CANCELLED, None, s.now + c.cleanupTimeout)
    case DeadlineFires => BeginQuiesce(c, s, TRANSFER_TIMEOUT)
    case SchedulerLosesPart => BeginQuiesce(c, Log(s, Defect), BOOKKEEPING)
    case Settles(k) =>
      var t := Settle(s, k);
      if t.pending == {} then BeginAbort(t, s.phase.primary, None, s.phase.cleanupDeadline) else t
    case SettleTimesOut =>
      BeginAbort(s.(abandoned := s.pending, pending := {}), s.phase.primary, Some(QUIESCE_TIMEOUT),
                 s.phase.cleanupDeadline)
    case CompleteSucceeds(bodies) => Finish(Log(s, Completed), Ok(Flatten(bodies)))
    case CompleteFails(e) =>
      BeginAbort(Log(s, CompletionFailed(e)), e, None, s.now + c.cleanupTimeout)
    case AbortReturns(error) =>
      Finish(Log(s, AbortSettled(error)),
             Err(AttachCleanupFailure(s.phase.primary, CleanupFailure(error, s.phase.quiesce))))
  }

  /** The state a sequence of actions leads to, if each was possible in turn. */
  function Exec(c: Config, actions: seq<Action>): Option<State>
    requires ValidConfig(c)
  {
    if actions == [] then Some(INITIAL)
    else
      var last := actions[|actions| - 1];
      match Exec(c, actions[..|actions| - 1])
      case None => None
      case Some(s) => if Enabled(c, s, last) then Some(Apply(c, s, last)) else None
  }
}
