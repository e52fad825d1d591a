/**
  Any number of requests sharing one token bucket: every interleaving of the retry loops of
  `src/client/request/execute.rs` over the counter of `src/client/mod.rs`.
 */
module RetrySystem {
  import opened Wire
  import opened RetryPolicy
  import opened RetryQuota
  import opened RetryLoop

  datatype System = System(tokens: nat, runs: seq<Run>)

  datatype Move = Move(run: nat, action: Action)

  predicate ValidConfigs(cs: seq<Config>) {
    forall i :: 0 <= i < |cs| ==> ValidConfig(cs[i])
  }

  function Start(cs: seq<Config>): System {
    System(CAPACITY, seq(|cs|, i requires 0 <= i < |cs| => Initial(cs[i])))
  }

  predicate CanMove(cs: seq<Config>, s: System, m: Move) {
    m.run < |s.runs| == |cs| && cs[m.run].started <= s.runs[m.run].now && Enabled(cs[m.run], s.runs[m.run], m.action)
  }

  function DoMove(cs: seq<Config>, s: System, m: Move): System
    requires CanMove(cs, s, m)
  {
    var (run, tokens) := Apply(cs[m.run], s.runs[m.run], s.tokens, m.action);
    System(tokens, s.runs[m.run := run])
  }

  function Interleave(cs: seq<Config>, moves: seq<Move>): Option<System> {
    if moves == [] then Some(Start(cs))
    else
      match Interleave(cs, moves[..|moves| - 1])
      case None => None
      case Some(s) =>
        var m := moves[|moves| - 1];
        if CanMove(cs, s, m) then Some(DoMove(cs, s, m)) else None
  }

  // ----- totals over all runs ---------------------------------------------------------------

  function LiveCost(r: Run): nat {
    if r.permit.Some? then r.permit.value else 0
  }

  /** Sums of a measure over the runs. */
  function Total(f: Run -> nat, runs: seq<Run>): nat {
    if runs == [] then 0 else f(runs[0]) + Total(f, runs[1..])
  }

  const LIVE: Run -> nat := (r: Run) => LiveCost(r)
  const COMMITTED: Run -> nat := (r: Run) => r.committedCost
  const CREDITS: Run -> nat := (r: Run) => r.credit
  const RETRIES: Run -> nat := (r: Run) => r.committed
  const SENDS: Run -> nat := (r: Run) => r.attempts
  const REDIRECTS: Run -> nat := (r: Run) => Redirections(r)

  lemma {:induction false} TotalUpdate(f: Run -> nat, runs: seq<Run>, i: nat, r: Run)
    requires i < |runs|
    ensures Total(f, runs[i := r]) == Total(f, runs) - f(runs[i]) + f(r)
  {
    if i == 0 {
      assert runs[0 := r][1..] == runs[1..];
    } else {
      assert runs[i := r][1..] == runs[1..][i - 1 := r];
      TotalUpdate(f, runs[1..], i - 1, r);
    }
  }

  lemma {:induction false} TotalZero(f: Run -> nat, runs: seq<Run>)
    requires forall i :: 0 <= i < |runs| ==> f(runs[i]) == 0
    ensures Total(f, runs) == 0
  {
    if runs != [] {
      TotalZero(f, runs[1..]);
    }
  }

  // ----- the ledger ---------------------------------------------------------------------------

  /** What is in the bucket, in live permits, and spent. */
  function Ledger(s: System): nat {
    s.tokens + Total(LIVE, s.runs) + Total(COMMITTED, s.runs)
  }

  ghost predicate Balanced(cs: seq<Config>, s: System) {
    && |s.runs| == |cs|
    && (forall i :: 0 <= i < |cs| ==> Inv(cs[i], s.runs[i]))
    && s.tokens <= CAPACITY
    && CAPACITY <= Ledger(s) <= CAPACITY + Total(CREDITS, s.runs)
  }

  /** One step of one run: the ledger grows by at most the success credit, and shrinks only into a full bucket. */
  lemma StepBalance(c: Config, r: Run, tokens: nat, a: Action)
    requires ValidConfig(c) && Inv(c, r) && Enabled(c, r, a) && tokens <= CAPACITY
    ensures var (r', tokens') := Apply(c, r, tokens, a);
            && tokens' <= CAPACITY
            && r.credit <= r'.credit
            && Spent(r', tokens') <= Spent(r, tokens) + (r'.credit - r.credit)
            && (Spent(r', tokens') >= Spent(r, tokens) || tokens' == CAPACITY)
  {
    hide WellFormed, EndsFinally, Routed, FollowsRedirect, FollowRedirect, EndAttempt;
    if a.Answers? {
      AnswerBalance(c, r, tokens, a);
      if FollowsRedirect(c, r, a.heard, a.answer) {
        RedirectBalance(c, r.(now := a.heard), tokens, a.answer);
      }
    }
  }

  lemma AnswerBalance(c: Config, r: Run, tokens: nat, a: Action)
    requires c.started <= r.now && a.Answers? && r.now <= a.heard <= a.read && r.permit == None && tokens <= CAPACITY
    ensures var (r', tokens') := EndAttempt(c, r, tokens, a);
            && tokens' <= CAPACITY
            && r.credit <= r'.credit
            && Spent(r', tokens') <= Spent(r, tokens) + (r'.credit - r.credit)
            && (Spent(r', tokens') >= Spent(r, tokens) || tokens' == CAPACITY)
    ensures FollowsRedirect(c, r, a.heard, a.answer) ==>
              a.answer.Redirect? && RedirectAuthority(c.route, a.answer.region).Some?
  {
    hide AttemptEnd, AttemptLimit, Judged, AfterFailure, RedirectAuthority;
    var here := r.(now := AttemptEnd(c, r.now, a.heard, a.read));
    FailureBalance(c, here, tokens, Judged(c, r.now, a.heard, a.read, a.failure));
  }

  lemma RedirectBalance(c: Config, r: Run, tokens: nat, answer: Answer)
    requires answer.Redirect? && RedirectAuthority(c.route, answer.region).Some? && r.permit == None
    ensures var (r', tokens') := FollowRedirect(c, r, tokens, answer.region);
            tokens' == tokens && r'.credit == r.credit && Spent(r', tokens') == Spent(r, tokens)
  {
    hide RedirectAuthority;
  }

  /** The bucket, a run's live permit and what the run has spent. */
  function Spent(r: Run, tokens: nat): nat {
    tokens + LiveCost(r) + r.committedCost
  }

  lemma FailureBalance(c: Config, r: Run, tokens: nat, failure: Failure)
    requires c.started <= r.now && r.permit == None
    ensures var (r', tokens') := AfterFailure(c, r, tokens, failure);
            tokens' <= tokens && r'.credit == r.credit && Spent(r', tokens') == Spent(r, tokens)
  {
    hide DelayFor;
  }

  lemma MoveBalances(cs: seq<Config>, s: System, m: Move)
    requires ValidConfigs(cs) && Balanced(cs, s) && CanMove(cs, s, m)
    ensures Balanced(cs, DoMove(cs, s, m))
  {
    hide Inv, Apply, Enabled;
    var c, r := cs[m.run], s.runs[m.run];
    var (r', _) := Apply(c, r, s.tokens, m.action);
    StepKeeps(c, r, s.tokens, m.action);
    StepBalance(c, r, s.tokens, m.action);
    TotalUpdate(LIVE, s.runs, m.run, r');
    TotalUpdate(COMMITTED, s.runs, m.run, r');
    TotalUpdate(CREDITS, s.runs, m.run, r');
  }

  /** The ledger holds in every state of every interleaving of any number of runs. */
  lemma {:induction false} LedgerHolds(cs: seq<Config>, moves: seq<Move>)
    requires ValidConfigs(cs) && Interleave(cs, moves).Some?
    ensures Balanced(cs, Interleave(cs, moves).value)
  {
    hide Balanced, CanMove, DoMove, Start;
    if moves == [] {
      StartBalances(cs);
    } else {
      LedgerHolds(cs, moves[..|moves| - 1]);
      MoveBalances(cs, Interleave(cs, moves[..|moves| - 1]).value, moves[|moves| - 1]);
    }
  }

  lemma StartBalances(cs: seq<Config>)
    requires ValidConfigs(cs)
    ensures Balanced(cs, Start(cs))
  {
    hide Inv, Total;
    var s := Start(cs);
    TotalZero(LIVE, s.runs);
    TotalZero(COMMITTED, s.runs);
    TotalZero(CREDITS, s.runs);
    forall i | 0 <= i < |cs| ensures Inv(cs[i], s.runs[i]) {
      InitialIsFine(cs[i]);
    }
  }

  lemma InitialIsFine(c: Config)
    requires ValidConfig(c)
    ensures Inv(c, Initial(c))
  {
  }

  // ----- consequences ------------------------------------------------------------------------------

  lemma {:induction false} CostBounds(cs: seq<Config>, runs: seq<Run>)
    requires |runs| == |cs| && forall i :: 0 <= i < |cs| ==> Inv(cs[i], runs[i])
    ensures THROTTLING_COST * Total(RETRIES, runs) <= Total(COMMITTED, runs)
    ensures Total(SENDS, runs) <= |runs| + Total(REDIRECTS, runs) + Total(RETRIES, runs)
    ensures Total(REDIRECTS, runs) <= |runs|
  {
    if runs != [] {
      assert Inv(cs[0], runs[0]);
      assert forall i :: 0 <= i < |cs| - 1 ==> cs[1..][i] == cs[i + 1] && runs[1..][i] == runs[i + 1];
      hide WellFormed, EndsFinally;
      CostBounds(cs[1..], runs[1..]);
    }
  }

  /**
    Retries are bounded across the whole client: what the bucket holds, what live permits hold and
    what was spent is exactly the capacity until a success adds credit, so retries without success
    number at most 100, and all sends of n runs at most n, plus one redirect each, plus the retries.
   */
  lemma {:induction false} RetriesAreBounded(cs: seq<Config>, moves: seq<Move>)
    requires ValidConfigs(cs) && Interleave(cs, moves).Some?
    ensures var s := Interleave(cs, moves).value;
            var retries, credits := Total(RETRIES, s.runs), Total(CREDITS, s.runs);
            && s.tokens <= CAPACITY
            && CAPACITY <= Ledger(s) <= CAPACITY + credits
            && THROTTLING_COST * retries <= CAPACITY + credits
            && (credits == 0 ==> Ledger(s) == CAPACITY && retries <= 100)
            && Total(SENDS, s.runs) <= 2 * |cs| + retries
  {
    LedgerHolds(cs, moves);
    hide Inv;
    CostBounds(cs, Interleave(cs, moves).value.runs);
  }

  /** If no answer so far was a throttling error, at most 35 retries were made without a success. */
  lemma {:induction false} TransientRetriesAreBounded(cs: seq<Config>, moves: seq<Move>)
    requires ValidConfigs(cs) && Interleave(cs, moves).Some?
    requires Total(CREDITS, Interleave(cs, moves).value.runs) == 0 && Unthrottled(moves)
    ensures Total(RETRIES, Interleave(cs, moves).value.runs) <= 35
  {
    hide Interleave;
    LedgerHolds(cs, moves);
    UnthrottledRuns(cs, moves);
    TransientTotal(Interleave(cs, moves).value.runs);
  }

  /** No answer so far was a throttling error. */
  predicate Unthrottled(moves: seq<Move>) {
    forall i :: 0 <= i < |moves| ==>
      (moves[i].action.Answers? ==> moves[i].action.failure.classification != Throttled)
  }

  predicate Transient(r: Run) {
    r.committedCost == TRANSIENT_COST * r.committed && (r.permit.Some? ==> r.permit.value == TRANSIENT_COST)
  }

  lemma TransientFailure(c: Config, r: Run, tokens: nat, failure: Failure)
    requires c.started <= r.now && Transient(r) && failure.classification != Throttled
    ensures Transient(AfterFailure(c, r, tokens, failure).0)
  {
    hide DelayFor;
  }

  lemma TransientStep(c: Config, r: Run, tokens: nat, a: Action)
    requires c.started <= r.now && Enabled(c, r, a) && Transient(r)
    requires a.Answers? ==> a.failure.classification != Throttled
    ensures Transient(Apply(c, r, tokens, a).0)
  {
    hide AfterFailure, RedirectAuthority, AttemptEnd, AttemptLimit;
    if a.Answers? {
      var here := r.(now := AttemptEnd(c, r.now, a.heard, a.read));
      TransientFailure(c, here, tokens, Judged(c, r.now, a.heard, a.read, a.failure));
    }
  }

  lemma {:induction false} UnthrottledRuns(cs: seq<Config>, moves: seq<Move>)
    requires Interleave(cs, moves).Some? && Unthrottled(moves)
    ensures forall i :: 0 <= i < |Interleave(cs, moves).value.runs| ==> Transient(Interleave(cs, moves).value.runs[i])
  {
    if moves != [] {
      hide Apply, Enabled, Transient;
      var front, m := moves[..|moves| - 1], moves[|moves| - 1];
      UnthrottledRuns(cs, front);
      var s := Interleave(cs, front).value;
      TransientStep(cs[m.run], s.runs[m.run], s.tokens, m.action);
    }
  }

  lemma {:induction false} TransientTotal(runs: seq<Run>)
    requires forall i :: 0 <= i < |runs| ==> Transient(runs[i])
    ensures Total(COMMITTED, runs) == TRANSIENT_COST * Total(RETRIES, runs)
  {
    if runs != [] {
      TransientTotal(runs[1..]);
    }
  }

  /** When every run has ended, no tokens are held back: the bucket lacks only what was spent and not restored. */
  lemma {:induction false} NothingHeldAtTheEnd(cs: seq<Config>, moves: seq<Move>)
    requires ValidConfigs(cs) && Interleave(cs, moves).Some?
    requires forall i :: 0 <= i < |cs| ==> |Interleave(cs, moves).value.runs| == |cs|
                                           && Interleave(cs, moves).value.runs[i].pc.Done?
    ensures var s := Interleave(cs, moves).value;
            && Total(LIVE, s.runs) == 0
            && s.tokens + Total(COMMITTED, s.runs) >= CAPACITY
  {
    LedgerHolds(cs, moves);
    var s := Interleave(cs, moves).value;
    hide Interleave, WellFormed, EndsFinally;
    forall i | 0 <= i < |s.runs| ensures LiveCost(s.runs[i]) == 0 {
      assert Inv(cs[i], s.runs[i]);
    }
    TotalZero(LIVE, s.runs);
  }
}
