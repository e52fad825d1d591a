/** The verified response body of `src/stream/download.rs`. */
module DownloadStream {
  import opened Wire
  import opened ByteSource

  datatype StreamError = DeadlineExpired | Idle | LengthOverflow | TooLong | TooShort | DigestMismatch | SourceFailed

  type Frame = ByteSource.Frame<StreamError>

  /** The stream is made at time `started`; every poll says what time it is. */
  datatype Config = Config(
    items: seq<Item>,
    expectedLength: Option<nat>,
    expectedSha256: Option<Text>,
    sha256: Text -> Text,
    started: nat,
    idleTimeout: nat,
    deadline: Option<nat>)

  datatype State = State(source: seq<Item>, received: nat, hashed: Text, idleUntil: nat, finished: bool)

  function Fresh(c: Config): State {
    State(c.items, 0, [], c.started + c.idleTimeout, false)
  }

  predicate PastDeadline(c: Config, now: nat) {
    c.deadline.Some? && now >= c.deadline.value
  }

  /** One of the two timers has fired. */
  predicate Due(c: Config, s: State, now: nat) {
    PastDeadline(c, now) || now >= s.idleUntil
  }

  predicate Exceeds(c: Config, received: nat) {
    c.expectedLength.Some? && received > c.expectedLength.value
  }

  /** What one call of `poll_next` does. */
  function Poll(c: Config, s: State, now: nat): (State, Frame) {
    if s.finished then (s, End)
    else if PastDeadline(c, now) then (s.(finished := true), Error(DeadlineExpired))
    else if now >= s.idleUntil then (s.(finished := true), Error(Idle))
    else if s.source == [] then
      var ended := s.(finished := true);
      if c.expectedLength.Some? && s.received != c.expectedLength.value then (ended, Error(TooShort))
      else if c.expectedSha256.Some? && c.sha256(s.hashed) != c.expectedSha256.value then (ended, Error(DigestMismatch))
      else (ended, End)
    else
      var taken := s.(source := s.source[1..]);
      match s.source[0]
      case NotReady => (taken, Pending)
      case Failure => (taken.(finished := true), Error(SourceFailed))
      case Chunk(bytes) =>
        if bytes == [] then (taken, Pending)
        else
          var received := s.received + |bytes|;
          var reset := taken.(idleUntil := now + c.idleTimeout);
          if received > U64_MAX then (reset.(finished := true), Error(LengthOverflow))
          else if Exceeds(c, received) then (reset.(received := received, finished := true), Error(TooLong))
          else (reset.(received := received, hashed := s.hashed + bytes), Data(bytes))
  }

  // ----- the code --------------------------------------------------------------------

  /** `ResponseStream`; the hasher is fed only when a digest is expected. */
  class ResponseStream {
    var inner: seq<Item>
    var received: nat
    var hasher: Option<Text>
    var idle: nat
    var finished: bool
    ghost var fed: Text
    const config: Config

    ghost predicate Valid()
      reads this
    {
      && (!finished && config.expectedSha256.Some? ==> hasher == Some(fed))
      && (config.expectedSha256.None? ==> hasher == None)
    }

    ghost function View(): State
      reads this
    {
      State(inner, received, fed, idle, finished)
    }

    constructor (config: Config)
      ensures this.config == config && Valid() && View() == Fresh(config)
    {
      this.config := config;
      inner, received, finished := config.items, 0, false;
      hasher := if config.expectedSha256.Some? then Some([]) else None;
      idle := config.started + config.idleTimeout;
      fed := [];
    }

    /** `poll_next`, at time `now`. */
    method PollNext(now: nat) returns (frame: Frame)
      requires Valid()
      modifies this
      ensures Valid() && (View(), frame) == Poll(config, old(View()), now)
    {
      if finished {
        return End;
      }
      if config.deadline.Some? && now >= config.deadline.value {
        finished := true;
        return Error(DeadlineExpired);
      }
      if now >= idle {
        finished := true;
        return Error(Idle);
      }
      if inner == [] {
        finished := true;
        if config.expectedLength.Some? && received != config.expectedLength.value {
          return Error(TooShort);
        }
        if config.expectedSha256.Some? {
          var actual := config.sha256(hasher.value);
          hasher := None;
          return if actual == config.expectedSha256.value then End else Error(DigestMismatch);
        }
        return End;
      }
      var item := inner[0];
      inner := inner[1..];
      match item
      case NotReady =>
        return Pending;
      case Failure =>
        finished := true;
        return Error(SourceFailed);
      case Chunk(bytes) =>
        if bytes == [] {
          return Pending;
        }
        idle := now + config.idleTimeout;
        if received + |bytes| > U64_MAX {
          finished := true;
          return Error(LengthOverflow);
        }
        received := received + |bytes|;
        if config.expectedLength.Some? && received > config.expectedLength.value {
          finished := true;
          return Error(TooLong);
        }
        if hasher.Some? {
          hasher := Some(hasher.value + bytes);
        }
        fed := fed + bytes;
        return Data(bytes);
    }
  }

  // ----- runs --------------------------------------------------------------------------

  /** What the response headers promise about the body. */
  predicate Good(c: Config) {
    && Failure !in c.items
    && |Bytes(c.items)| <= U64_MAX
    && (c.expectedLength.Some? ==> |Bytes(c.items)| == c.expectedLength.value)
    && (c.expectedSha256.Some? ==> c.sha256(Bytes(c.items)) == c.expectedSha256.value)
  }

  /** The state and the frames after n polls, the i-th one at time `clock(i)`. */
  function Polls(c: Config, clock: nat -> nat, n: nat): (State, seq<Frame>) {
    if n == 0 then (Fresh(c), [])
    else
      var (s, frames) := Polls(c, clock, n - 1);
      var (s', frame) := Poll(c, s, clock(n - 1));
      (s', frames + [frame])
  }

  ghost predicate NoError(frames: seq<Frame>) {
    forall i :: 0 <= i < |frames| ==> !frames[i].Error?
  }

  /** A timer was due on an unfinished stream at one of the first n polls. */
  ghost predicate TimedOut(c: Config, clock: nat -> nat, n: nat) {
    exists i :: 0 <= i < n && !Polls(c, clock, i).0.finished && Due(c, Polls(c, clock, i).0, clock(i))
  }

  ghost predicate Running(c: Config, s: State, out: Text) {
    && !s.finished
    && |s.source| <= |c.items|
    && var k := |c.items| - |s.source|;
    && s.source == c.items[k..]
    && Failure !in c.items[..k]
    && out == s.hashed == Bytes(c.items[..k])
    && |out| == s.received <= U64_MAX
    && !Exceeds(c, s.received)
  }

  /** What holds after every number of polls, `timed` recording whether a timer has ended the stream. */
  ghost predicate Invariant(c: Config, s: State, frames: seq<Frame>, timed: bool) {
    var out := Emitted(frames);
    && out <= Bytes(c.items)
    && !Exceeds(c, |out|)
    && (!s.finished ==> Running(c, s, out) && NoError(frames) && !timed)
    && (s.finished && NoError(frames) ==> Good(c) && out == Bytes(c.items) && !timed)
    && (s.finished && !NoError(frames) ==> !Good(c) || timed)
  }

  /** One source item taken: the facts about the consumed prefix move along. */
  lemma TakeItem(c: Config, s: State, out: Text)
    requires Running(c, s, out) && s.source != []
    ensures var k := |c.items| - |s.source|;
            && s.source[0] == c.items[k] && s.source[1..] == c.items[k + 1..]
            && (c.items[k] != Failure ==> Failure !in c.items[..k + 1])
            && Bytes(c.items[..k + 1]) == out + (if c.items[k].Chunk? then c.items[k].bytes else [])
            && Bytes(c.items[..k + 1]) <= Bytes(c.items)
  {
    var k := |c.items| - |s.source|;
    assert c.items[..k + 1][..k] == c.items[..k];
    assert c.items[..k + 1] == c.items[..k] + [c.items[k]];
    BytesPrefix(c.items, k + 1);
  }

  ghost predicate PollOutcome(c: Config, s: State, now: nat, out: Text) {
    var (s', frame) := Poll(c, s, now);
    && (s'.finished || |s'.source| < |s.source|)
    && match frame
       case Data(bytes) => Running(c, s', out + bytes) && out + bytes <= Bytes(c.items)
       case Pending => Running(c, s', out)
       case End => s'.finished && Good(c) && out == Bytes(c.items)
       case Error(_) => s'.finished && (!Good(c) || Due(c, s, now))
  }

  lemma PollAtEnd(c: Config, s: State, now: nat, out: Text)
    requires Running(c, s, out) && s.source == [] && !Due(c, s, now)
    ensures PollOutcome(c, s, now, out)
  {
    assert c.items[..|c.items|] == c.items;
    hide Bytes;
  }

  /** An item that brings no byte. */
  lemma TakeNothing(c: Config, s: State, out: Text)
    requires Running(c, s, out) && s.source != []
    requires s.source[0] == NotReady || s.source[0] == Chunk([])
    ensures Running(c, s.(source := s.source[1..]), out)
  {
    TakeItem(c, s, out);
    hide Bytes;
    assert out + [] == out;
  }

  /** A chunk is passed on, or proves the transfer bad. */
  lemma TakeChunk(c: Config, s: State, out: Text, bytes: Text, idleUntil: nat)
    requires Running(c, s, out) && s.source != [] && s.source[0] == Chunk(bytes) && bytes != []
    ensures var received := s.received + |bytes|;
            if received > U64_MAX || Exceeds(c, received) then !Good(c)
            else && Running(c, s.(source := s.source[1..], received := received, hashed := s.hashed + bytes,
                                  idleUntil := idleUntil), out + bytes)
                 && out + bytes <= Bytes(c.items)
  {
    TakeItem(c, s, out);
    hide Bytes;
  }

  lemma PollStep(c: Config, s: State, now: nat, out: Text)
    requires Running(c, s, out)
    ensures PollOutcome(c, s, now, out)
    ensures Due(c, s, now) ==> Poll(c, s, now).1.Error?
    ensures out <= Bytes(c.items)
  {
    BytesPrefix(c.items, |c.items| - |s.source|);
    if Due(c, s, now) {
    } else if s.source == [] {
      PollAtEnd(c, s, now, out);
    } else {
      match s.source[0]
      case NotReady =>
        TakeNothing(c, s, out);
      case Failure =>
        TakeItem(c, s, out);
      case Chunk(bytes) =>
        if bytes == [] {
          TakeNothing(c, s, out);
        } else {
          TakeChunk(c, s, out, bytes, now + c.idleTimeout);
        }
    }
  }

  lemma FrameSnoc(frames: seq<Frame>, frame: Frame)
    ensures Emitted(frames + [frame]) == Emitted(frames) + if frame.Data? then frame.bytes else []
    ensures NoError(frames + [frame]) <==> NoError(frames) && !frame.Error?
  {
    var all := frames + [frame];
    assert all[..|frames|] == frames;
    assert all[|frames|] == frame;
    assert forall i :: 0 <= i < |frames| ==> all[i] == frames[i];
  }

  lemma InvariantStep(c: Config, s: State, frames: seq<Frame>, timed: bool, now: nat)
    requires Invariant(c, s, frames, timed)
    ensures Invariant(c, Poll(c, s, now).0, frames + [Poll(c, s, now).1],
                      timed || (!s.finished && Due(c, s, now)))
    ensures Poll(c, s, now).0.finished || |Poll(c, s, now).0.source| < |s.source|
  {
    var out := Emitted(frames);
    var frame := Poll(c, s, now).1;
    FrameSnoc(frames, frame);
    assert out + [] == out;
    if s.finished {
      assert frame == End;
    } else {
      PollStep(c, s, now, out);
      hide Poll, Bytes, Good, NoError, Emitted;
    }
  }

  lemma {:induction false} PollsInvariant(c: Config, clock: nat -> nat, n: nat)
    ensures Invariant(c, Polls(c, clock, n).0, Polls(c, clock, n).1, TimedOut(c, clock, n))
    ensures Polls(c, clock, n).0.finished || |Polls(c, clock, n).0.source| + n <= |c.items|
  {
    if n == 0 {
      assert c.items[..0] == [] && c.items[0..] == c.items;
      assert Bytes([]) == [];
    } else {
      PollsInvariant(c, clock, n - 1);
      var (s, frames) := Polls(c, clock, n - 1);
      InvariantStep(c, s, frames, TimedOut(c, clock, n - 1), clock(n - 1));
      hide Invariant;
      TimedOutStep(c, clock, n);
      if s.finished {
        assert Poll(c, s, clock(n - 1)).0.finished;
      }
    }
  }

  lemma {:induction false} TimedOutStep(c: Config, clock: nat -> nat, n: nat)
    requires n > 0
    ensures TimedOut(c, clock, n) <==>
            || TimedOut(c, clock, n - 1)
            || (!Polls(c, clock, n - 1).0.finished && Due(c, Polls(c, clock, n - 1).0, clock(n - 1)))
  {
    hide Polls, Due;
  }

  /** Emitted bytes are a prefix of the transfer and never exceed the declared length. */
  lemma EmittedIsPrefix(c: Config, clock: nat -> nat, n: nat)
    ensures var out := Emitted(Polls(c, clock, n).1);
            out <= Bytes(c.items) && (c.expectedLength.Some? ==> |out| <= c.expectedLength.value)
  {
    PollsInvariant(c, clock, n);
  }

  /** Polled to its end, the stream is error-free exactly when the transfer was good and no timer fired. */
  lemma EndsCleanlyIffGood(c: Config, clock: nat -> nat, n: nat)
    requires Polls(c, clock, n).0.finished
    ensures NoError(Polls(c, clock, n).1) <==> Good(c) && !TimedOut(c, clock, n)
    ensures NoError(Polls(c, clock, n).1) ==> Emitted(Polls(c, clock, n).1) == Bytes(c.items)
  {
    PollsInvariant(c, clock, n);
  }

  /** The stream always ends, within one poll more than the transport has items. */
  lemma AlwaysEnds(c: Config, clock: nat -> nat, n: nat)
    requires n > |c.items|
    ensures Polls(c, clock, n).0.finished
  {
    PollsInvariant(c, clock, n);
  }

  /** The time of the last chunk among the first n polls, or of the start. */
  ghost function LastProgress(c: Config, clock: nat -> nat, n: nat): nat {
    if n == 0 then c.started
    else if Poll(c, Polls(c, clock, n - 1).0, clock(n - 1)).1.Data? then clock(n - 1)
    else LastProgress(c, clock, n - 1)
  }

  lemma {:induction false} IdleTimerFollowsProgress(c: Config, clock: nat -> nat, n: nat)
    ensures var s := Polls(c, clock, n).0;
            !s.finished ==> s.idleUntil == LastProgress(c, clock, n) + c.idleTimeout
  {
    if n > 0 {
      IdleTimerFollowsProgress(c, clock, n - 1);
      IdleStep(c, Polls(c, clock, n - 1).0, clock(n - 1));
      hide Poll;
    }
  }

  lemma IdleStep(c: Config, s: State, now: nat)
    ensures var (s', frame) := Poll(c, s, now);
            !s'.finished ==> !s.finished && s'.idleUntil == if frame.Data? then now + c.idleTimeout else s.idleUntil
  {
  }

  /**
    The idle error is raised exactly when the deadline has not passed and the last chunk, or the start,
    is at least the idle timeout ago; chunks without bytes are no progress.
   */
  lemma IdleErrorMeaning(c: Config, clock: nat -> nat, n: nat)
    requires !Polls(c, clock, n).0.finished
    ensures Poll(c, Polls(c, clock, n).0, clock(n)).1 == Error(Idle)
       <==> !PastDeadline(c, clock(n)) && clock(n) >= LastProgress(c, clock, n) + c.idleTimeout
  {
    IdleTimerFollowsProgress(c, clock, n);
  }

  /** Why the n-th poll ends the stream with an error. */
  ghost predicate Blamed(c: Config, clock: nat -> nat, n: nat, e: StreamError) {
    match e
    case DeadlineExpired => PastDeadline(c, clock(n))
    case Idle => !PastDeadline(c, clock(n)) && clock(n) >= LastProgress(c, clock, n) + c.idleTimeout
    case SourceFailed =>
      exists k :: 0 <= k < |c.items| && c.items[k] == Failure && Failure !in c.items[..k]
                  && !Exceeds(c, |Bytes(c.items[..k])|)
    case LengthOverflow =>
      exists k :: 0 <= k <= |c.items| && Failure !in c.items[..k]
                  && |Bytes(c.items[..k])| > 0xFFFF_FFFF_FFFF_FFFF
    case TooLong =>
      c.expectedLength.Some?
      && exists k :: 0 <= k <= |c.items| && Failure !in c.items[..k] && |Bytes(c.items[..k])| > c.expectedLength.value
    case TooShort =>
      Failure !in c.items && c.expectedLength.Some? && |Bytes(c.items)| < c.expectedLength.value
    case DigestMismatch =>
      && Failure !in c.items && c.expectedSha256.Some? && c.sha256(Bytes(c.items)) != c.expectedSha256.value
      && (c.expectedLength.Some? ==> |Bytes(c.items)| == c.expectedLength.value)
  }

  lemma {:induction false} ErrorOfItem(c: Config, clock: nat -> nat, n: nat, s: State, out: Text)
    requires Running(c, s, out) && s.source != [] && !Due(c, s, clock(n))
    requires Poll(c, s, clock(n)).1.Error?
    ensures Blamed(c, clock, n, Poll(c, s, clock(n)).1.error)
  {
    TakeItem(c, s, out);
    RunningFacts(c, s, out);
    hide Bytes, Running, Due;
    var k := |c.items| - |s.source|;
    match s.source[0]
    case Chunk(bytes) => assert |Bytes(c.items[..k + 1])| == s.received + |bytes|;
    case Failure => assert !Exceeds(c, |Bytes(c.items[..k])|);
    case NotReady =>
  }

  lemma RunningFacts(c: Config, s: State, out: Text)
    requires Running(c, s, out)
    ensures !s.finished && |s.source| <= |c.items|
    ensures var k := |c.items| - |s.source|;
            Failure !in c.items[..k] && |Bytes(c.items[..k])| == |out| == s.received && !Exceeds(c, s.received)
  {
    hide Bytes;
  }

  lemma {:induction false} ErrorAtEnd(c: Config, clock: nat -> nat, n: nat, s: State, out: Text)
    requires Running(c, s, out) && s.source == [] && !Due(c, s, clock(n))
    requires Poll(c, s, clock(n)).1.Error?
    ensures Blamed(c, clock, n, Poll(c, s, clock(n)).1.error)
  {
    assert c.items[..|c.items|] == c.items;
    hide Bytes;
  }

  /** Every error says what went wrong at that poll. */
  lemma {:induction false} ErrorExactly(c: Config, clock: nat -> nat, n: nat)
    requires !Polls(c, clock, n).0.finished
    requires Poll(c, Polls(c, clock, n).0, clock(n)).1.Error?
    ensures Blamed(c, clock, n, Poll(c, Polls(c, clock, n).0, clock(n)).1.error)
  {
    hide Polls, Blamed, Running;
    PollsInvariant(c, clock, n);
    var (s, frames) := Polls(c, clock, n);
    if Due(c, s, clock(n)) {
      ErrorOfTimer(c, clock, n);
    } else if s.source == [] {
      ErrorAtEnd(c, clock, n, s, Emitted(frames));
    } else {
      ErrorOfItem(c, clock, n, s, Emitted(frames));
    }
  }

  lemma {:induction false} ErrorOfTimer(c: Config, clock: nat -> nat, n: nat)
    requires !Polls(c, clock, n).0.finished && Due(c, Polls(c, clock, n).0, clock(n))
    ensures Poll(c, Polls(c, clock, n).0, clock(n)).1.Error?
    ensures Blamed(c, clock, n, Poll(c, Polls(c, clock, n).0, clock(n)).1.error)
  {
    hide Polls, LastProgress;
    IdleTimerFollowsProgress(c, clock, n);
  }

  // ----- write_to --------------------------------------------------------------------------

  datatype WriteError = Stream(error: StreamError) | WriterFailed | CountOverflow

  /** The destination, with what it has received. */
  class Sink {
    var contents: Text

    /** `write_all`: everything, or some part of it and a failure. */
    method WriteAll(chunk: Text, accepted: nat) returns (ok: bool)
      modifies this
      ensures ok <==> accepted >= |chunk|
      ensures ok ==> contents == old(contents) + chunk
      ensures !ok ==> contents == old(contents) + chunk[..accepted]
    {
      ok := accepted >= |chunk|;
      contents := contents + if ok then chunk else chunk[..accepted];
    }
  }

  ghost predicate StreamFails(c: Config, clock: nat -> nat, n: nat, e: StreamError) {
    !Polls(c, clock, n).0.finished && Poll(c, Polls(c, clock, n).0, clock(n)).1 == Error(e)
  }

  /**
    `write_to` on a fresh stream: `clock` gives the time of each poll, `accepts` what
    the writer takes of each chunk.
   */
  method WriteTo(c: Config, clock: nat -> nat, accepts: nat -> nat, flushes: bool, sink: Sink)
    returns (r: Result<nat, WriteError>)
    modifies sink
    ensures r.Ok? ==> && Good(c)
                      && sink.contents == old(sink.contents) + Bytes(c.items)
                      && r.value == |Bytes(c.items)|
    ensures r.Ok? || r.error.Stream? || r.error.WriterFailed?
    ensures old(sink.contents) <= sink.contents <= old(sink.contents) + Bytes(c.items)
    ensures r.Err? && r.error.Stream? ==> exists n :: StreamFails(c, clock, n, r.error.error)
    ensures (Good(c) && (forall i :: !TimedOut(c, clock, i))
             && (forall i :: accepts(i) >= |Bytes(c.items)|) && flushes) ==> r.Ok?
  {
    hide Invariant, Running, Bytes, Emitted, Poll, Good, TimedOut, NoError, StreamFails;
    var stream := new ResponseStream(c);
    var written := 0;
    ghost var start := sink.contents;
    var n: nat := 0;
    ghost var frames: seq<Frame> := [];
    FreshFacts();
    assert start + [] == start;
    while true
      invariant fresh(stream) && stream.config == c && stream.Valid()
      invariant (stream.View(), frames) == Polls(c, clock, n)
      invariant NoError(frames)
      invariant sink.contents == start + Emitted(frames)
      invariant written == |Emitted(frames)|
      decreases |stream.inner| + if stream.finished then 0 else 1
    {
      var frame := stream.PollNext(clock(n));
      PollFacts(c, clock, n);
      n := n + 1;
      FrameSnoc(frames, frame);
      ghost var before := Emitted(frames);
      frames := frames + [frame];
      match frame
      case Pending =>
        assert before + [] == before;
      case End =>
        assert before + [] == before;
        break;
      case Error(e) =>
        PrefixBelow(start, before, Bytes(c.items));
        return Err(Stream(e));
      case Data(bytes) =>
        PrefixBelow(start, before + bytes, Bytes(c.items));
        assert start + before + bytes == start + (before + bytes);
        var ok := sink.WriteAll(bytes, accepts(n));
        if !ok {
          return Err(WriterFailed);
        }
        if written + |bytes| > U64_MAX {
          return Err(CountOverflow);
        }
        written := written + |bytes|;
    }
    if !flushes {
      return Err(WriterFailed);
    }
    r := Ok(written);
  }

  lemma PrefixBelow(start: Text, x: Text, y: Text)
    requires x <= y
    ensures start + x <= start + y
  {
  }

  lemma FreshFacts()
    ensures NoError([]) && Emitted<StreamError>([]) == []
  {
  }

  /** What the consumer of an error-free stream may conclude from its next poll. */
  lemma PollFacts(c: Config, clock: nat -> nat, n: nat)
    requires NoError(Polls(c, clock, n).1)
    ensures var (s, frames) := Polls(c, clock, n);
            var (s', frame) := Poll(c, s, clock(n));
            match frame
            case Pending => !s.finished && !s'.finished && |s'.source| < |s.source|
            case End => Good(c) && Emitted(frames) == Bytes(c.items)
            case Error(_) => StreamFails(c, clock, n, frame.error) && (Good(c) ==> TimedOut(c, clock, n + 1))
            case Data(bytes) =>
              && !s.finished && !s'.finished && |s'.source| < |s.source|
              && |Emitted(frames)| + |bytes| <= U64_MAX && Emitted(frames) + bytes <= Bytes(c.items)
    ensures Emitted(Polls(c, clock, n).1) <= Bytes(c.items)
  {
    PollsInvariant(c, clock, n);
    var (s, frames) := Polls(c, clock, n);
    if !s.finished {
      PollStep(c, s, clock(n), Emitted(frames));
      hide Poll, Bytes, Good, Emitted, NoError;
      TimedOutStep(c, clock, n + 1);
    }
  }
}
