/**
  The HTTP request body of `src/stream/upload.rs`: it withholds the last chunk
  until the source has ended and its digest has been checked.
 */
module UploadBody {
  import opened Wire
  import opened ByteSource

  datatype BodyError = TooLong | TooShort | DigestMismatch | SourceFailed

  type Frame = ByteSource.Frame<BodyError>

  /** The declared length and digest, and the hash function, which is not modelled further. */
  datatype Config = Config(items: seq<Item>, length: nat, expected: Text, sha256: Text -> Text)

  datatype State = State(source: seq<Item>, remaining: nat, hashed: Text, finalChunk: Option<Text>, finished: bool)

  function Fresh(c: Config): State {
    State(c.items, c.length, [], None, false)
  }

  function Fail(s: State, source: seq<Item>, e: BodyError): (State, Frame) {
    (s.(source := source, remaining := 0, finalChunk := None, finished := true), Error(e))
  }

  /** What one call of `poll_frame` does. */
  function Poll(c: Config, s: State): (State, Frame)
    decreases |s.source|
  {
    if s.finished then (s, End)
    else if s.source == [] then
      if s.finalChunk.Some? then
        if c.sha256(s.hashed) != c.expected then Fail(s, [], DigestMismatch)
        else (s.(remaining := 0, finalChunk := None, finished := true), Data(s.finalChunk.value))
      else if s.remaining != 0 then Fail(s, [], TooShort)
      else if c.sha256(s.hashed) != c.expected then Fail(s, [], DigestMismatch)
      else (s.(finished := true), End)
    else
      var rest := s.source[1..];
      match s.source[0]
      case NotReady => (s.(source := rest), Pending)
      case Failure => Fail(s, rest, SourceFailed)
      case Chunk(bytes) =>
        if bytes == [] then Poll(c, s.(source := rest))
        else if s.finalChunk.Some? || |bytes| > s.remaining then Fail(s, rest, TooLong)
        else if |bytes| == s.remaining then
          Poll(c, s.(source := rest, hashed := s.hashed + bytes, finalChunk := Some(bytes)))
        else
          (s.(source := rest, hashed := s.hashed + bytes, remaining := s.remaining - |bytes|), Data(bytes))
  }

  /** `TransportBody`. */
  class TransportBody {
    var stream: seq<Item>
    var remaining: nat
    var hasher: Text
    var finalChunk: Option<Text>
    var finished: bool
    const config: Config

    constructor (config: Config)
      ensures this.config == config && View() == Fresh(config)
    {
      this.config := config;
      stream, remaining, hasher := config.items, config.length, [];
      finalChunk, finished := None, false;
    }

    function View(): State
      reads this
    {
      State(stream, remaining, hasher, finalChunk, finished)
    }

    /** `Stream::poll_next` of the source; `None` is its end. */
    method PollSource() returns (item: Option<Item>)
      modifies this`stream
      ensures old(stream) == [] ==> item == None && stream == []
      ensures old(stream) != [] ==> item == Some(old(stream)[0]) && stream == old(stream)[1..]
    {
      if stream == [] {
        item := None;
      } else {
        item := Some(stream[0]);
        stream := stream[1..];
      }
    }

    /** `poll_frame`. */
    method PollFrame() returns (frame: Frame)
      modifies this
      ensures (View(), frame) == Poll(config, old(View()))
    {
      if finished {
        return End;
      }
      while true
        invariant !finished
        invariant Poll(config, View()) == Poll(config, old(View()))
        decreases |stream|
      {
        ghost var before := View();
        if finalChunk.Some? {
          var item := PollSource();
          match item
          case Some(Chunk(bytes)) =>
            if bytes == [] {
              continue;
            }
            finished, remaining, finalChunk := true, 0, None;
            return Error(TooLong);
          case Some(Failure) =>
            finished, remaining, finalChunk := true, 0, None;
            return Error(SourceFailed);
          case Some(NotReady) =>
            return Pending;
          case None =>
            if config.sha256(hasher) != config.expected {
              finished, remaining, finalChunk := true, 0, None;
              return Error(DigestMismatch);
            }
            var chunk := finalChunk.value;
            finished, remaining, finalChunk := true, 0, None;
            return Data(chunk);
        }
        var item := PollSource();
        match item
        case Some(Chunk(bytes)) =>
          if bytes == [] {
            continue;
          }
          if |bytes| > remaining {
            finished, remaining := true, 0;
            return Error(TooLong);
          }
          hasher := hasher + bytes;
          if |bytes| == remaining {
            finalChunk := Some(bytes);
            continue;
          }
          remaining := remaining - |bytes|;
          return Data(bytes);
        case Some(Failure) =>
          finished, remaining := true, 0;
          return Error(SourceFailed);
        case Some(NotReady) =>
          return Pending;
        case None =>
          finished := true;
          if remaining != 0 {
            remaining := 0;
            return Error(TooShort);
          }
          if config.sha256(hasher) == config.expected {
            return End;
          } else {
            return Error(DigestMismatch);
          }
      }
    }

    /** `size_hint` and `is_end_stream`, after some number of polls: exactly what is still to be sent. */
    method SizeHint(ghost polls: nat) returns (exact: nat, ended: bool)
      requires View() == Polls(config, polls).0
      ensures var sent := Emitted(Polls(config, polls).1);
              && sent <= Bytes(config.items)
              && (!ended ==> |sent| + exact == config.length)
              && (ended ==> exact == 0)
    {
      EmittedIsPrefix(config, polls);
      exact, ended := remaining, finished;
    }
  }

  // ----- runs ---------------------------------------------------------------------------

  predicate Clean(items: seq<Item>) {
    Failure !in items
  }

  /** What the declaration of the body promises about its source. */
  predicate Good(c: Config) {
    Clean(c.items) && |Bytes(c.items)| == c.length && c.sha256(Bytes(c.items)) == c.expected
  }

  /** The state and the frames after n polls. */
  function Polls(c: Config, n: nat): (State, seq<Frame>) {
    if n == 0 then (Fresh(c), [])
    else
      var (s, frames) := Polls(c, n - 1);
      var (s', frame) := Poll(c, s);
      (s', frames + [frame])
  }

  ghost predicate Quiet(frames: seq<Frame>) {
    forall i :: 0 <= i < |frames| ==> frames[i].Data? || frames[i].Pending?
  }

  /** A body still in progress, after the first k source items. */
  ghost predicate Running(c: Config, s: State, out: Text) {
    && !s.finished
    && |s.source| <= |c.items|
    && var k := |c.items| - |s.source|;
    && s.source == c.items[k..]
    && Clean(c.items[..k])
    && s.hashed == Bytes(c.items[..k])
    && s.hashed == out + (if s.finalChunk.Some? then s.finalChunk.value else [])
    && |out| + s.remaining == c.length
    && (s.finalChunk.Some? ==> |s.finalChunk.value| == s.remaining > 0)
    && (s.finalChunk.None? && s.remaining == 0 ==> c.length == 0)
  }

  ghost predicate EndedWell(c: Config, s: State, out: Text) {
    s.finished && s.remaining == 0 && Good(c) && out == Bytes(c.items)
  }

  ghost predicate EndedBadly(c: Config, s: State, out: Text) {
    && s.finished && s.remaining == 0 && !Good(c)
    && out <= Bytes(c.items)
    && (c.length > 0 ==> |out| < c.length)
  }

  /** What the source did wrong first. */
  ghost predicate Blamed(c: Config, e: BodyError) {
    match e
    case SourceFailed =>
      exists k :: 0 <= k < |c.items| && c.items[k] == Failure
                  && Clean(c.items[..k]) && |Bytes(c.items[..k])| <= c.length
    case TooLong => exists k :: 0 <= k <= |c.items| && Clean(c.items[..k]) && |Bytes(c.items[..k])| > c.length
    case TooShort => Clean(c.items) && |Bytes(c.items)| < c.length
    case DigestMismatch => Clean(c.items) && |Bytes(c.items)| == c.length && c.sha256(Bytes(c.items)) != c.expected
  }

  ghost predicate Blames(c: Config, frames: seq<Frame>) {
    forall i :: 0 <= i < |frames| && frames[i].Error? ==> Blamed(c, frames[i].error)
  }

  /** What holds after every number of polls. */
  ghost predicate Invariant(c: Config, s: State, frames: seq<Frame>) {
    || (Running(c, s, Emitted(frames)) && Quiet(frames))
    || (EndedWell(c, s, Emitted(frames)) && forall i :: 0 <= i < |frames| ==> !frames[i].Error?)
    || (EndedBadly(c, s, Emitted(frames)) && OneError(frames) && Blames(c, frames))
  }

  /** Quiet, then one error, then only end-of-stream. */
  ghost predicate OneError(frames: seq<Frame>) {
    exists e :: 0 <= e < |frames| && frames[e].Error? && Quiet(frames[..e])
                && forall j :: e < j < |frames| ==> frames[j] == End
  }

  /** One source item taken: the facts about the consumed prefix move along. */
  lemma TakeItem(c: Config, s: State, out: Text)
    requires Running(c, s, out) && s.source != []
    ensures var k := |c.items| - |s.source|;
            && s.source[0] == c.items[k] && s.source[1..] == c.items[k + 1..]
            && (c.items[k] != Failure ==> Clean(c.items[..k + 1]))
            && (!c.items[k].Chunk? ==> Bytes(c.items[..k + 1]) == s.hashed)
            && (c.items[k].Chunk? ==> Bytes(c.items[..k + 1]) == s.hashed + c.items[k].bytes)
            && Bytes(c.items[..k + 1]) <= Bytes(c.items)
            && s.hashed <= Bytes(c.items)
  {
    hide Bytes;
    var k := |c.items| - |s.source|;
    BytesSnoc(c.items, k);
    BytesPrefix(c.items, k);
    BytesPrefix(c.items, k + 1);
    assert c.items[..k + 1] == c.items[..k] + [c.items[k]];
    assert s.hashed + [] == s.hashed;
  }

  lemma PollAtEnd(c: Config, s: State, out: Text)
    requires Running(c, s, out) && s.source == []
    ensures PollOutcome(c, s, out)
  {
    assert c.items[..|c.items|] == c.items;
    hide Bytes;
    assert out + [] == out;
  }

  ghost predicate PollOutcome(c: Config, s: State, out: Text) {
    var (s', frame) := Poll(c, s);
    && (s'.finished || |s'.source| < |s.source|)
    && match frame
       case Data(bytes) => Running(c, s', out + bytes) || EndedWell(c, s', out + bytes)
       case Pending => Running(c, s', out)
       case End => EndedWell(c, s', out)
       case Error(e) => EndedBadly(c, s', out) && Blamed(c, e)
  }

  /** Taking an item that brings no byte leaves a running body. */
  lemma TakeNothing(c: Config, s: State, out: Text)
    requires Running(c, s, out) && s.source != []
    requires s.source[0] == NotReady || s.source[0] == Chunk([])
    ensures Running(c, s.(source := s.source[1..]), out)
  {
    TakeItem(c, s, out);
    hide Bytes, Clean;
    assert s.hashed + [] == s.hashed;
  }

  /** Taking the chunk that completes the declared length holds it back. */
  lemma TakeFinalChunk(c: Config, s: State, out: Text, bytes: Text)
    requires Running(c, s, out) && s.source != [] && s.source[0] == Chunk(bytes)
    requires s.finalChunk.None? && 0 < |bytes| == s.remaining
    ensures Running(c, s.(source := s.source[1..], hashed := s.hashed + bytes, finalChunk := Some(bytes)), out)
  {
    TakeItem(c, s, out);
    hide Bytes, Clean;
    assert out + [] == out;
  }

  /** Any other chunk that fits is passed on. */
  lemma TakeChunk(c: Config, s: State, out: Text, bytes: Text)
    requires Running(c, s, out) && s.source != [] && s.source[0] == Chunk(bytes)
    requires s.finalChunk.None? && 0 < |bytes| < s.remaining
    ensures Running(c, s.(source := s.source[1..], hashed := s.hashed + bytes, remaining := s.remaining - |bytes|),
                    out + bytes)
  {
    TakeItem(c, s, out);
    hide Bytes, Clean;
    assert out + [] == out && out + bytes + [] == out + bytes;
  }

  /** A chunk too many, or too long, cannot be part of a good source. */
  lemma ExcessIsBad(c: Config, s: State, out: Text)
    requires Running(c, s, out) && s.source != [] && s.source[0].Chunk? && s.source[0].bytes != []
    requires s.finalChunk.Some? || |s.source[0].bytes| > s.remaining
    ensures !Good(c) && Blamed(c, TooLong)
  {
    TakeItem(c, s, out);
    hide Bytes, Clean;
    assert |Bytes(c.items[..|c.items| - |s.source| + 1])| > c.length;
  }

  lemma EmittedSoFar(c: Config, s: State, out: Text)
    requires Running(c, s, out)
    ensures out <= Bytes(c.items)
  {
    BytesPrefix(c.items, |c.items| - |s.source|);
    hide Bytes;
    assert out <= s.hashed;
  }

  lemma FailureIsBad(c: Config, s: State, out: Text)
    requires Running(c, s, out) && s.source != [] && s.source[0] == Failure
    ensures !Good(c) && Blamed(c, SourceFailed)
  {
    TakeItem(c, s, out);
    hide Bytes;
    assert |Bytes(c.items[..|c.items| - |s.source|])| <= c.length;
  }

  lemma RunningUnfinished(c: Config, s: State, out: Text)
    requires Running(c, s, out)
    ensures !s.finished
  {
  }

  lemma BadEnd(c: Config, s: State, out: Text, source: seq<Item>, e: BodyError)
    requires Running(c, s, out) && !Good(c)
    ensures EndedBadly(c, Fail(s, source, e).0, out)
  {
    EmittedSoFar(c, s, out);
    hide Bytes, Good;
  }

  /** One poll from a running body. */
  /** One unfolding of `Poll`. */
  lemma {:induction false} PollItem(c: Config, s: State)
    requires !s.finished && s.source != []
    ensures var rest := s.source[1..];
            match s.source[0]
            case NotReady => Poll(c, s) == (s.(source := rest), Pending)
            case Failure => Poll(c, s) == Fail(s, rest, SourceFailed)
            case Chunk(bytes) =>
              if bytes == [] then Poll(c, s) == Poll(c, s.(source := rest))
              else if s.finalChunk.Some? || |bytes| > s.remaining then Poll(c, s) == Fail(s, rest, TooLong)
              else
                var read := s.(source := rest, hashed := s.hashed + bytes);
                if |bytes| == s.remaining then Poll(c, s) == Poll(c, read.(finalChunk := Some(bytes)))
                else Poll(c, s) == (read.(remaining := s.remaining - |bytes|), Data(bytes))
  {
    hide Fail;
  }

  /** A poll that only moves on to another poll ends as that one does. */
  lemma {:induction false} SameOutcome(c: Config, s: State, t: State, out: Text)
    requires Poll(c, s) == Poll(c, t) && |t.source| <= |s.source| && PollOutcome(c, t, out)
    ensures PollOutcome(c, s, out)
  {
    hide Poll, Running, EndedWell, EndedBadly, Blamed;
  }

  lemma {:induction false} NotReadyOutcome(c: Config, s: State, out: Text)
    requires Running(c, s, out) && s.source != [] && s.source[0] == NotReady
    ensures PollOutcome(c, s, out)
  {
    RunningUnfinished(c, s, out);
    hide Running, Poll, EndedWell, EndedBadly, Blamed;
    PollItem(c, s);
    TakeNothing(c, s, out);
  }

  lemma {:induction false} BadOutcome(c: Config, s: State, out: Text, e: BodyError)
    requires Running(c, s, out) && s.source != [] && !Good(c)
    requires Poll(c, s) == Fail(s, s.source[1..], e) && Blamed(c, e)
    ensures PollOutcome(c, s, out)
  {
    hide Running, Poll, EndedWell, EndedBadly, Good, Blamed;
    BadEnd(c, s, out, s.source[1..], e);
  }

  lemma {:induction false} ChunkOutcome(c: Config, s: State, out: Text, bytes: Text)
    requires Running(c, s, out) && s.source != [] && s.source[0] == Chunk(bytes)
    requires s.finalChunk.None? && 0 < |bytes| < s.remaining
    ensures PollOutcome(c, s, out)
  {
    RunningUnfinished(c, s, out);
    hide Running, Poll, EndedWell, EndedBadly, Blamed;
    PollItem(c, s);
    TakeChunk(c, s, out, bytes);
  }

  /** One poll from a running body. */
  lemma {:induction false} PollStep(c: Config, s: State, out: Text)
    requires Running(c, s, out)
    ensures PollOutcome(c, s, out)
    decreases |s.source|
  {
    hide Running, Poll, PollOutcome, Good, Fail, Blamed;
    RunningUnfinished(c, s, out);
    if s.source == [] {
      PollAtEnd(c, s, out);
    } else {
      PollItem(c, s);
      var rest := s.source[1..];
      match s.source[0]
      case NotReady =>
        NotReadyOutcome(c, s, out);
      case Failure =>
        FailureIsBad(c, s, out);
        BadOutcome(c, s, out, SourceFailed);
      case Chunk(bytes) =>
        if bytes == [] {
          var t := s.(source := rest);
          TakeNothing(c, s, out);
          PollStep(c, t, out);
          SameOutcome(c, s, t, out);
        } else if s.finalChunk.Some? || |bytes| > s.remaining {
          ExcessIsBad(c, s, out);
          BadOutcome(c, s, out, TooLong);
        } else if |bytes| == s.remaining {
          var t := s.(source := rest, hashed := s.hashed + bytes, finalChunk := Some(bytes));
          TakeFinalChunk(c, s, out, bytes);
          PollStep(c, t, out);
          SameOutcome(c, s, t, out);
        } else {
          ChunkOutcome(c, s, out, bytes);
        }
    }
  }

  lemma InvariantStep(c: Config, s: State, frames: seq<Frame>)
    requires Invariant(c, s, frames)
    ensures Invariant(c, Poll(c, s).0, frames + [Poll(c, s).1])
    ensures Poll(c, s).0.finished || |Poll(c, s).0.source| < |s.source|
  {
    hide Emitted, Poll, Good, Bytes, Clean, Blamed;
    var (s', frame) := Poll(c, s);
    EmittedSnoc(frames, frame);
    var out, all := Emitted(frames), frames + [frame];
    assert out + [] == out;
    if s.finished {
      PollFinished(c, s);
      if EndedBadly(c, s, out) {
        ErrorThenEnd(frames);
      }
    } else {
      PollStep(c, s, out);
      if frame.Error? {
        assert all[..|frames|] == frames && all[|frames|].Error?;
      }
    }
  }

  /** Every number of polls keeps the invariant, and the body ends in time. */
  lemma {:induction false} PollsInvariant(c: Config, n: nat)
    ensures Invariant(c, Polls(c, n).0, Polls(c, n).1)
    ensures Polls(c, n).0.finished || |Polls(c, n).0.source| + n <= |c.items|
  {
    if n == 0 {
      assert c.items[..0] == [] && c.items[0..] == c.items;
    } else {
      hide Invariant, Poll;
      PollsInvariant(c, n - 1);
      InvariantStep(c, Polls(c, n - 1).0, Polls(c, n - 1).1);
      if Polls(c, n - 1).0.finished {
        PollFinished(c, Polls(c, n - 1).0);
      }
    }
  }

  lemma PollFinished(c: Config, s: State)
    requires s.finished
    ensures Poll(c, s) == (s, End)
  {
  }

  lemma ErrorThenEnd(frames: seq<Frame>)
    requires OneError(frames)
    ensures OneError(frames + [End])
  {
    var e :| 0 <= e < |frames| && frames[e].Error? && Quiet(frames[..e])
             && forall j :: e < j < |frames| ==> frames[j] == End;
    var all := frames + [End];
    assert all[..e] == frames[..e] && all[e].Error?;
  }

  // ----- what the caller sees ------------------------------------------------------------------

  /** While the body is unfinished it has sent a prefix, and `size_hint` is exactly what is left. */
  lemma EmittedIsPrefix(c: Config, n: nat)
    ensures var (s, frames) := Polls(c, n);
            && Emitted(frames) <= Bytes(c.items)
            && (!s.finished ==> |Emitted(frames)| + s.remaining == c.length)
            && (s.finished ==> s.remaining == 0)
  {
    PollsInvariant(c, n);
    var (s, frames) := Polls(c, n);
    if !s.finished {
      EmittedSoFar(c, s, Emitted(frames));
    }
  }

  /** The declared length is never reached unless the source kept every promise. */
  lemma FullLengthOnlyIfVerified(c: Config, n: nat)
    requires c.length > 0 && |Emitted(Polls(c, n).1)| == c.length
    ensures Good(c) && Emitted(Polls(c, n).1) == Bytes(c.items)
  {
    PollsInvariant(c, n);
  }

  /** Polled to its end, the body raises no error exactly when the source kept its promises. */
  lemma EndsCleanlyIffGood(c: Config, n: nat)
    requires n > |c.items|
    ensures var (s, frames) := Polls(c, n);
            && s.finished
            && ((forall i :: 0 <= i < |frames| ==> !frames[i].Error?) <==> Good(c))
            && (Good(c) ==> Emitted(frames) == Bytes(c.items))
            && (!Good(c) ==> OneError(frames))
  {
    PollsInvariant(c, n);
  }

  /** An error frame says what went wrong first. */
  lemma {:induction false} ErrorExactly(c: Config, n: nat, i: nat)
    requires i < |Polls(c, n).1| && Polls(c, n).1[i].Error?
    ensures Blamed(c, Polls(c, n).1[i].error)
  {
    PollsInvariant(c, n);
    hide Polls, Blamed, Running, EndedWell, EndedBadly, OneError;
  }

  lemma {:induction false} ShorterPrefix(c: Config, k: nat, j: nat)
    requires j <= k <= |c.items|
    ensures |Bytes(c.items[..j])| <= |Bytes(c.items[..k])|
  {
    BytesPrefix(c.items[..k], j);
    assert c.items[..k][..j] == c.items[..j];
  }

  lemma FailureComesLater(c: Config, k: nat, j: nat)
    requires k <= |c.items| && j < |c.items| && Clean(c.items[..k]) && c.items[j] == Failure
    ensures k <= j
  {
  }

  /** A source that sends too much does so before anything else goes wrong. */
  lemma {:induction false} TooLongComesFirst(c: Config)
    ensures !(Blamed(c, TooLong) && Blamed(c, TooShort)) && !(Blamed(c, TooLong) && Blamed(c, DigestMismatch))
    ensures !(Blamed(c, TooLong) && Blamed(c, SourceFailed))
  {
    assert c.items[..|c.items|] == c.items;
    hide Bytes, Clean;
    forall k | 0 <= k <= |c.items| && Clean(c.items[..k]) && |Bytes(c.items[..k])| > c.length
      ensures |Bytes(c.items)| > c.length
      ensures forall j :: 0 <= j < |c.items| && c.items[j] == Failure ==> |Bytes(c.items[..j])| > c.length
    {
      ShorterPrefix(c, |c.items|, k);
      forall j | 0 <= j < |c.items| && c.items[j] == Failure ensures |Bytes(c.items[..j])| > c.length {
        FailureComesLater(c, k, j);
        ShorterPrefix(c, j, k);
      }
    }
  }

  /** Only one thing can have gone wrong first. */
  lemma {:induction false} BlameIsUnique(c: Config, e: BodyError, f: BodyError)
    requires Blamed(c, e) && Blamed(c, f)
    ensures e == f
  {
    TooLongComesFirst(c);
    hide Bytes;
  }
}
