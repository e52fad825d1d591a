/**
  The protocol has no dead ends: while parts are being uploaded a fault-free continuation completes the
  upload, from every other state that is not final the run can still end, and the work it takes is
  bounded by the number of parts.
 */
module ManagedUploadProgress {
  import opened Wire
  import opened MultipartParts
  import opened ManagedUpload
  import opened ManagedUploadSafety
  import opened ManagedUploadRun

  lemma {:induction false} ExecSnoc(c: Config, actions: seq<Action>, a: Action)
    requires ValidConfig(c) && Exec(c, actions).Some? && Enabled(c, Exec(c, actions).value, a)
    ensures Exec(c, actions + [a]) == Some(Apply(c, Exec(c, actions).value, a))
  {
    hide Enabled, Apply;
    assert (actions + [a])[..|actions|] == actions;
  }

  // ----- one part ---------------------------------------------------------------------------

  lemma InFlightIsPlanned(c: Config, s: State, k: nat)
    requires ValidConfig(c) && Inv(c, s) && s.phase.Uploading? && k in s.pending
    ensures 1 <= k < s.next && k !in Numbers(s.upload) && k in UpTo(Count(c))
  {
    hide Observe, Ascending, Stored, Planned, Count, Numbers;
    assert k in Observe(s.log).started;
  }

  lemma RecordAdds(c: Config, s: State, part: CompletedPart)
    requires ValidConfig(c) && Inv(c, s) && s.phase.Uploading? && Record(s.upload, part).Ok?
    ensures Numbers(Record(s.upload, part).value) == Numbers(s.upload) + {part.number}
  {
    hide Observe, Stored, Planned, Count, Record, Tally, UpTo, Numbers;
    RecordMeaning(s.upload, part);
  }

  lemma PartDoneApplies(c: Config, s: State, k: nat, etag: string)
    requires ValidConfig(c) && s.phase.Uploading? && k in s.pending
    requires Accepted(s.versions, CompletedPart(k, etag)) && Record(s.upload, CompletedPart(k, etag)).Ok?
    ensures Enabled(c, s, PartDone(k, etag))
    ensures Apply(c, s, PartDone(k, etag))
         == LoopHead(c, Settle(s, k).(upload := Record(s.upload, CompletedPart(k, etag)).value))
  {
    hide LoopHead, Settle, Record, BeginQuiesce, BeginAbort;
  }

  /** Recording one more part leads to the next wait, or to the completion. */
  lemma PartAdvances(c: Config, s: State, k: nat, etag: string)
    requires ValidConfig(c) && Inv(c, s) && s.phase.Uploading? && k in s.pending
    requires Accepted(s.versions, CompletedPart(k, etag))
    ensures Enabled(c, s, PartDone(k, etag))
    ensures var t := Apply(c, s, PartDone(k, etag));
            (t.phase.Uploading? || t.phase.Completing?) && Numbers(t.upload) == Numbers(s.upload) + {k}
  {
    hide Inv, Accepted, Record, LoopHead, Settle, Numbers, Enabled, Apply;
    PartDoneKeeps(c, s, k, etag);
    RecordAdds(c, s, CompletedPart(k, etag));
    PartDoneApplies(c, s, k, etag);
  }

  lemma StoreApplies(c: Config, s: State, k: nat, etag: string)
    requires ValidConfig(c) && s.phase.Uploading? && 1 <= k < s.next
    ensures Enabled(c, s, ServerStores(k, etag))
    ensures var t := Apply(c, s, ServerStores(k, etag));
            && t == s.(versions := t.versions)
            && Accepted(t.versions, CompletedPart(k, etag))
  {
    hide Body, LoopHead, BeginQuiesce, BeginAbort;
    var t := Apply(c, s, ServerStores(k, etag));
    assert Version(k, etag, Body(c, k)) in t.versions;
  }

  /** An in-flight part can be stored by the server and then recorded. */
  lemma {:induction false} TakeOnePart(c: Config, actions: seq<Action>, k: nat) returns (after: seq<Action>)
    requires ValidConfig(c) && Exec(c, actions).Some? && Exec(c, actions).value.phase.Uploading?
    requires k in Exec(c, actions).value.pending
    ensures |after| >= |actions| && after[..|actions|] == actions && Exec(c, after).Some?
    ensures var s, t := Exec(c, actions).value, Exec(c, after).value;
            && (t.phase.Uploading? || t.phase.Completing?)
            && Numbers(t.upload) == Numbers(s.upload) + {k}
            && k !in Numbers(s.upload) && k in UpTo(Count(c))
  {
    hide Exec, Inv, Numbers, UpTo, Count, Apply, Enabled, Accepted;
    RunKeeps(c, actions);
    var s := Exec(c, actions).value;
    InFlightIsPlanned(c, s, k);
    var store, done := ServerStores(k, ""), PartDone(k, "");
    StoreApplies(c, s, k, "");
    StepKeeps(c, s, store);
    ExecSnoc(c, actions, store);
    var stored := Apply(c, s, store);
    PartAdvances(c, stored, k, "");
    ExecSnoc(c, actions + [store], done);
    after := actions + [store] + [done];
    assert after[..|actions|] == actions;
  }

  // ----- the completion ----------------------------------------------------------------------

  /** The bodies the server holds for a recorded list. */
  function Bodies(c: Config, upload: seq<CompletedPart>): seq<Text>
    requires ValidConfig(c) && forall p :: p in upload ==> p.number >= 1
  {
    seq(|upload|, i requires 0 <= i < |upload| => Body(c, upload[i].number))
  }

  lemma ServerCanAssemble(c: Config, next: nat, versions: set<Version>, upload: seq<CompletedPart>)
    requires ValidConfig(c) && Stored(c, next, versions, upload)
    ensures forall p :: p in upload ==> p.number >= 1
    ensures Assembly(versions, upload, Bodies(c, upload))
  {
    hide Body;
    forall i | 0 <= i < |upload|
      ensures upload[i].number >= 1
      ensures Version(upload[i].number, upload[i].etag, Body(c, upload[i].number)) in versions
    {
      assert Accepted(versions, upload[i]);
      var v :| v in versions && v.number == upload[i].number && v.etag == upload[i].etag;
    }
  }

  lemma CompletingMeaning(c: Config, s: State)
    requires ValidConfig(c) && Inv(c, s) && s.phase.Completing?
    ensures Planned(c).Ok? && Stored(c, s.next, s.versions, s.upload)
    ensures Ascending(s.upload) && Numbers(s.upload) == UpTo(Count(c))
  {
    hide Observe, Numbers, Ascending, Stored, Tally, Planned, Count, UpTo;
  }

  lemma CompletionApplies(c: Config, s: State, bodies: seq<Text>)
    requires ValidConfig(c) && s.phase.Completing? && Assembly(s.versions, s.upload, bodies)
    ensures Enabled(c, s, CompleteSucceeds(bodies))
    ensures Apply(c, s, CompleteSucceeds(bodies)).phase == Done(Ok(Flatten(bodies)))
  {
    hide LoopHead, BeginQuiesce, BeginAbort, Record, Flatten;
  }

  lemma {:induction false} CompletionCanSucceed(c: Config, actions: seq<Action>) returns (more: seq<Action>)
    requires ValidConfig(c) && Exec(c, actions).Some? && Exec(c, actions).value.phase.Completing?
    ensures Exec(c, actions + more).Some? && Exec(c, actions + more).value.phase == Done(Ok(c.source))
  {
    hide *;
    RunKeeps(c, actions);
    var s := Exec(c, actions).value;
    CompletingMeaning(c, s);
    ServerCanAssemble(c, s.next, s.versions, s.upload);
    var bodies := Bodies(c, s.upload);
    AssembledIsSource(c, s.next, s.versions, s.upload, bodies);
    CompletionApplies(c, s, bodies);
    more := [CompleteSucceeds(bodies)];
    ExecSnoc(c, actions, CompleteSucceeds(bodies));
  }

  // ----- the whole upload ----------------------------------------------------------------------

  /** From any state in which parts are being uploaded, the upload can still succeed. */
  lemma {:induction false} UploadCanFinish(c: Config, actions: seq<Action>) returns (more: seq<Action>)
    requires ValidConfig(c) && Exec(c, actions).Some? && Exec(c, actions).value.phase.Uploading?
    ensures Exec(c, actions + more).Some? && Exec(c, actions + more).value.phase == Done(Ok(c.source))
    decreases |UpTo(Count(c)) - Numbers(Exec(c, actions).value.upload)|
  {
    hide Exec, Inv, Numbers, UpTo, Count;
    RunKeeps(c, actions);
    var s := Exec(c, actions).value;
    InFlightWhileUploading(c, s);
    var k :| k in s.pending;
    var after := TakeOnePart(c, actions, k);
    Shrinks(UpTo(Count(c)), Numbers(s.upload), k);
    var rest: seq<Action>;
    if Exec(c, after).value.phase.Completing? {
      rest := CompletionCanSucceed(c, after);
    } else {
      rest := UploadCanFinish(c, after);
    }
    more := after[|actions|..] + rest;
    assert actions + more == after + rest;
  }

  ghost predicate Succeeds(c: Config, actions: seq<Action>)
    requires ValidConfig(c)
  {
    Exec(c, actions).Some? && Exec(c, actions).value.phase == Done(Ok(c.source))
  }

  lemma {:induction false} UploadIsCreated(c: Config) returns (actions: seq<Action>)
    requires ValidConfig(c) && Planned(c).Ok?
    ensures Exec(c, actions).Some?
    ensures Exec(c, actions).value.phase.Uploading? || Exec(c, actions).value.phase.Completing?
  {
    hide Inv, LoopHead, Planned;
    assert Exec(c, []) == Some(INITIAL);
    ExecSnoc(c, [], Prepared);
    actions := [] + [Prepared];
    RunKeeps(c, actions);
    var s := Exec(c, actions).value;
    CreateSucceedsKeeps(c, s);
    ExecSnoc(c, actions, CreateSucceeds);
    actions := actions + [CreateSucceeds];
  }

  lemma {:induction false} SuccessIsPlanned(c: Config, actions: seq<Action>)
    requires ValidConfig(c) && Succeeds(c, actions)
    ensures Planned(c).Ok?
  {
    RunKeeps(c, actions);
    hide Exec, Observe, Planned;
  }

  /** Some run of a configuration succeeds exactly when its source can be split into parts. */
  lemma SuccessIsPossibleIffPlanned(c: Config)
    requires ValidConfig(c)
    ensures (exists actions :: Succeeds(c, actions)) <==> Planned(c).Ok?
  {
    hide Exec, Planned;
    if Planned(c).Ok? {
      var actions := UploadIsCreated(c);
      var more: seq<Action>;
      if Exec(c, actions).value.phase.Completing? {
        more := CompletionCanSucceed(c, actions);
      } else {
        more := UploadCanFinish(c, actions);
      }
      assert Succeeds(c, actions + more);
    }
    forall actions | Succeeds(c, actions) ensures Planned(c).Ok? {
      SuccessIsPlanned(c, actions);
    }
  }

  lemma Shrinks(all: set<nat>, done: set<nat>, k: nat)
    requires k in all && k !in done
    ensures |all - (done + {k})| < |all - done|
  {
    assert all - done == (all - (done + {k})) + {k};
  }

  // ----- every run can end, and soon ------------------------------------------------------------

  /** How many actions of the worker are left at most. */
  function WorkLeft(c: Config, s: State): int
    requires ValidConfig(c)
  {
    match s.phase
    case Preparing => Count(c) + 4
    case Creating => Count(c) + 3
    case Uploading => Count(c) - |Numbers(s.upload)| + 2
    case Quiescing(_, _, _) => |s.pending| + 1
    case Completing => 2
    case Aborting(_, _, _) => 1
    case Done(_) => 0
  }

  function WorkDone(actions: seq<Action>): nat {
    if actions == [] then 0
    else WorkDone(actions[..|actions| - 1]) + if Ambient(actions[|actions| - 1]) then 0 else 1
  }

  lemma InFlightIsLeft(c: Config, s: State)
    requires ValidConfig(c) && Inv(c, s) && s.phase.Uploading?
    ensures 0 < |s.pending| <= Count(c) - |Numbers(s.upload)|
  {
    hide Observe, Ascending, Stored, Planned, Count, Numbers, UpTo;
    var recorded := Numbers(s.upload);
    assert s.pending + recorded == UpTo(s.next - 1);
    DisjointCount(s.pending, recorded);
    assert |UpTo(s.next - 1)| == s.next - 1;
  }

  lemma DisjointCount(a: set<nat>, b: set<nat>)
    requires a !! b
    ensures |a + b| == |a| + |b|
  {
    assert (a + b) - b == a;
  }

  lemma QuiesceWork(c: Config, s: State, primary: S3Error)
    requires ValidConfig(c)
    ensures WorkLeft(c, BeginQuiesce(c, s, primary)) == |s.pending| + 1
  {
    hide Count, Numbers;
  }

  lemma UploadingWork(c: Config, s: State, a: Action)
    requires ValidConfig(c) && Inv(c, s) && s.phase.Uploading? && Enabled(c, s, a) && !Ambient(a)
    ensures WorkLeft(c, Apply(c, s, a)) < WorkLeft(c, s)
  {
    hide Inv, Apply, Enabled, BeginQuiesce, LoopHead, Record, Count, Numbers, UpTo, Accepted;
    InFlightIsLeft(c, s);
    UploadingSteps(c, s, a);
    match a {
      case PartDone(k, etag) =>
        InFlightIsPlanned(c, s, k);
        PartDoneIsAccepted(c, s, k, etag);
        PartAdvances(c, s, k, etag);
      case PartFails(k, error) =>
        QuiesceWork(c, Settle(s, k), error);
        SettleCounts(s, k);
      case SeeCancellation => QuiesceWork(c, s, CANCELLED);
      case DeadlineFires => QuiesceWork(c, s, TRANSFER_TIMEOUT);
      case SchedulerLosesPart => QuiesceWork(c, Log(s, Defect), BOOKKEEPING);
    }
  }

  lemma PartDoneIsAccepted(c: Config, s: State, k: nat, etag: string)
    requires Enabled(c, s, PartDone(k, etag))
    ensures Accepted(s.versions, CompletedPart(k, etag))
  {
  }

  lemma SettleCounts(s: State, k: nat)
    requires k in s.pending
    ensures |Settle(s, k).pending| == |s.pending| - 1
  {
  }

  lemma QuiescingWork(c: Config, s: State, a: Action)
    requires ValidConfig(c) && Inv(c, s) && s.phase.Quiescing? && Enabled(c, s, a) && !Ambient(a)
    ensures WorkLeft(c, Apply(c, s, a)) < WorkLeft(c, s)
  {
    hide Inv, Apply, Enabled, Count, Numbers;
    QuiescingIsPending(c, s);
    QuiescingSteps(c, s, a);
    if a.Settles? {
      SettleCounts(s, a.number);
    }
  }

  lemma QuiescingIsPending(c: Config, s: State)
    requires ValidConfig(c) && Inv(c, s) && s.phase.Quiescing?
    ensures s.pending != {} && |s.pending| > 0
  {
    hide Observe, Ascending, Stored, Planned, Count, Numbers, UpTo, Tally;
  }

  /** Every action of the worker brings the run closer to its end; time, the caller and the server leave it there. */
  lemma WorkShrinks(c: Config, s: State, a: Action)
    requires ValidConfig(c) && Inv(c, s) && Enabled(c, s, a)
    ensures WorkLeft(c, Apply(c, s, a)) <= WorkLeft(c, s) - if Ambient(a) then 0 else 1
  {
    hide Inv, Apply, Enabled, Numbers, LoopHead, BeginAbort;
    if Ambient(a) {
      AmbientSteps(c, s, a);
    } else {
      match s.phase {
        case Preparing => PreparingSteps(c, s, a);
        case Creating =>
          CreatingSteps(c, s, a);
          if a.CreateSucceeds? {
            CreateSucceedsKeeps(c, s);
            CreatedWork(c, s);
          }
        case Uploading => UploadingWork(c, s, a);
        case Quiescing(_, _, _) => QuiescingWork(c, s, a);
        case Completing =>
          CompletingSteps(c, s, a);
          AbortWork(c);
        case Aborting(_, _, _) => AbortingSteps(c, s, a);
        case Done(_) => DoneIsQuiet(c, s, a);
      }
    }
  }

  lemma CreatedWork(c: Config, s: State)
    requires ValidConfig(c)
    requires var t := LoopHead(c, Log(s, Created));
             t.phase.Uploading? || t.phase.Completing?
    ensures WorkLeft(c, LoopHead(c, Log(s, Created))) <= Count(c) + 2
  {
    hide LoopHead, Numbers, Count;
  }

  lemma AbortWork(c: Config)
    requires ValidConfig(c)
    ensures forall t: State, primary, quiesce, deadline :: WorkLeft(c, BeginAbort(t, primary, quiesce, deadline)) == 1
  {
    hide Count, Numbers;
  }

  lemma DoneIsQuiet(c: Config, s: State, a: Action)
    requires s.phase.Done? && Enabled(c, s, a)
    ensures Ambient(a)
  {
  }

  /** Over any run, what the worker did and what it has left never exceed the number of parts and four. */
  lemma {:induction false} WorkIsBounded(c: Config, actions: seq<Action>)
    requires ValidConfig(c) && Exec(c, actions).Some?
    ensures 0 <= WorkLeft(c, Exec(c, actions).value)
    ensures WorkDone(actions) + WorkLeft(c, Exec(c, actions).value) <= Count(c) + 4
  {
    WorkIsNatural(c, actions);
    if actions != [] {
      hide Inv, Apply, Enabled, WorkLeft, Ambient;
      var front, last := actions[..|actions| - 1], actions[|actions| - 1];
      WorkIsBounded(c, front);
      RunKeeps(c, front);
      WorkShrinks(c, Exec(c, front).value, last);
    }
  }

  lemma {:induction false} WorkIsNatural(c: Config, actions: seq<Action>)
    requires ValidConfig(c) && Exec(c, actions).Some?
    ensures var s := Exec(c, actions).value;
            0 <= WorkLeft(c, s) && (s.phase.Done? <==> WorkLeft(c, s) == 0)
  {
    hide Exec, Inv, Count, Numbers;
    RunKeeps(c, actions);
    var s := Exec(c, actions).value;
    if s.phase.Uploading? {
      InFlightIsLeft(c, s);
    }
  }

  /** Something the worker can be led to do without waiting. */
  lemma CanMove(c: Config, s: State) returns (a: Action)
    requires ValidConfig(c) && Inv(c, s) && !s.phase.Done?
    ensures Enabled(c, s, a) && !Ambient(a)
  {
    hide Observe, Ascending, Stored, Planned, Count, Numbers, UpTo, Tally;
    match s.phase
    case Preparing => a := PrepareFails(CANCELLED);
    case Creating => a := CreateFails(CANCELLED);
    case Uploading =>
      var k :| k in s.pending;
      a := PartFails(k, CANCELLED);
    case Quiescing(_, _, _) =>
      var k :| k in s.pending;
      a := Settles(k);
    case Completing => a := CompleteFails(CANCELLED);
    case Aborting(_, _, _) => a := AbortReturns(None);
  }

  /** Whatever happened before, the run can end, within as many actions as it has work left. */
  lemma {:induction false} RunCanEnd(c: Config, actions: seq<Action>) returns (more: seq<Action>)
    requires ValidConfig(c) && Exec(c, actions).Some?
    ensures Exec(c, actions + more).Some? && Exec(c, actions + more).value.phase.Done?
    ensures |more| <= WorkLeft(c, Exec(c, actions).value) <= Count(c) + 4
    decreases WorkLeft(c, Exec(c, actions).value)
  {
    hide Exec, Inv, Apply, Enabled, WorkLeft, Count;
    WorkIsBounded(c, actions);
    WorkIsNatural(c, actions);
    RunKeeps(c, actions);
    var s := Exec(c, actions).value;
    if s.phase.Done? {
      more := [];
      assert actions + more == actions;
    } else {
      var a := CanMove(c, s);
      WorkShrinks(c, s, a);
      ExecSnoc(c, actions, a);
      var rest := RunCanEnd(c, actions + [a]);
      more := [a] + rest;
      assert actions + more == actions + [a] + rest;
    }
  }
}
