/** What a recording call owes its application: it waits for the semaphore it is given and for nothing
    else of the application's, it uses the hardware the context has, and it refuses exactly what it
    should. */
module PipelineCalls {
  import opened Pipeline
  import opened PipelineGpu
  import opened PipelineInvariant
  import opened PipelineProgress
  import opened PipelineSafety

  // ----- What a recording call submits

  /** A call that records a frame, and whether the application gives it a semaphore to wait for. */
  predicate Records(call: ApiCall, appWait: bool) {
    (call.RecordGenerate? || call.RecordWarp?) && call.appWait == appWait
  }

  /** The batches of a successful recording call. */
  lemma Recorded(c: Ctx, call: ApiCall, log: seq<Batch>) returns (bs: seq<Batch>)
    requires (call.RecordGenerate? || call.RecordWarp?) && Call(c, call).answer.Synced?
    ensures FinalLog(log, Call(c, call).events) == log + bs && bs != []
    ensures call.RecordGenerate? ==> bs == GenerateBatches(Ensured(c, call.outcome).0, call.appWait)
    ensures call.RecordWarp? ==> bs == WarpBatches(c, call.appWait)
  {
    hide GenerateBatches, WarpBatches, FinalLog, Submits, Ensured;
    var es := Call(c, call).events;
    if call.RecordGenerate? {
      EnsuredAnswers(c, call.outcome);
      bs := GenerateBatches(Ensured(c, call.outcome).0, call.appWait);
    } else {
      bs := WarpBatches(c, call.appWait);
    }
    FinalLogFrame(log, es[..|es| - |bs|], bs);
    assert es == es[..|es| - |bs|] + Submits(bs);
    NotEmpty(c, call);
  }

  lemma NotEmpty(c: Ctx, call: ApiCall)
    ensures call.RecordGenerate? ==> GenerateBatches(Ensured(c, call.outcome).0, call.appWait) != []
    ensures call.RecordWarp? ==> WarpBatches(c, call.appWait) != []
  {
    hide Ensured;
  }

  /** The first of them runs on the compute queue, and waits for the application's semaphore if there is
      one and otherwise for nothing. */
  lemma FirstRecorded(c: Ctx, call: ApiCall, appWait: bool, log: seq<Batch>)
    requires Records(call, appWait) && Call(c, call).answer.Synced?
    ensures var all := FinalLog(log, Call(c, call).events);
      |all| > |log| && all[|log|].wait == (if appWait then AppWait else NoWait)
      && all[|log|].pass in {Prep, FlowWarp, WarpOnly}
  {
    hide FinalLog, Ensured, Call;
    var bs := Recorded(c, call, log);
    FirstOf(c, call);
  }

  lemma FirstOf(c: Ctx, call: ApiCall)
    ensures call.RecordGenerate? ==>
      var b := GenerateBatches(Ensured(c, call.outcome).0, call.appWait)[0];
      b.wait == (if call.appWait then AppWait else NoWait) && b.pass in {Prep, FlowWarp}
    ensures call.RecordWarp? ==>
      var b := WarpBatches(c, call.appWait)[0];
      b.wait == (if call.appWait then AppWait else NoWait) && b.pass == WarpOnly
  {
    hide Ensured;
  }

  // ----- Releases

  predicate ReleasedSubmitted(s: Sys) {
    forall i :: i in s.released ==> i < |s.log|
  }

  lemma StepReleased(s: Sys, step: Step)
    requires |s.log| == |s.st| && ReleasedSubmitted(s) && Enabled(s, step)
    ensures ReleasedSubmitted(Apply(s, step))
  {
  }

  lemma {:induction false} RunReleased(s: Sys, steps: seq<Step>, t: Sys)
    requires |s.log| == |s.st| && ReleasedSubmitted(s) && Runs(s, steps, t)
    ensures ReleasedSubmitted(t)
    decreases |steps|
  {
    if steps != [] {
      StepReleased(s, steps[0]);
      RunReleased(Apply(s, steps[0]), steps[1..], t);
    }
  }

  lemma ReachableReleased(t: Sys)
    requires Reachable(t)
    ensures ReleasedSubmitted(t)
  {
    var s: Sys, steps: seq<Step> :| Initial(s) && Runs(s, steps, t);
    RunReleased(s, steps, t);
  }

  /** A wait is satisfied in a run only by the application doing so. */
  lemma {:induction false} ReleasedInRun(s: Sys, steps: seq<Step>, t: Sys, n: nat)
    requires |s.log| == |s.st| && Runs(s, steps, t) && n !in s.released && n in t.released
    ensures Release(n) in steps
    decreases |steps|
  {
    if steps != [] && steps[0] != Release(n) {
      ReleasedInRun(Apply(s, steps[0]), steps[1..], t, n);
      assert steps == [steps[0]] + steps[1..];
    }
  }

  // ----- The application's semaphore

  /** Batch n, on the compute queue, holds back everything submitted after it until its wait is met. */
  lemma HeldBack(t: Sys, n: nat, i: nat)
    requires Inv(t) && Chained(t.log) && n <= i < |t.log| && t.log[n].wait == AppWait
    requires t.st[i] != Queued
    ensures n in t.released
  {
    if t.st[n] == Queued {
      if SameQueue(t.log, n, i) {
        assert Unblocked(t.log, t.counter, t.released, i);
      } else {
        OrderedAcross(t, n, i);
      }
    } else {
      assert Unblocked(t.log, t.counter, t.released, n);
    }
    assert WaitMet(t.log[n], n, t.counter, t.released);
  }

  /** Where batch n of a later state comes from. */
  lemma SubmittedBy(s: Sys, steps: seq<Step>, t: Sys, n: nat)
    requires Inv(s) && Runs(s, steps, t) && n < |t.log| && n < |FinalLog(s.log, s.todo)|
    ensures Inv(t) && t.log[n] == FinalLog(s.log, s.todo)[n]
  {
    RunInv(s, steps, t);
    FinalLogGrows(s, steps, t);
    var all := FinalLog(t.log, t.todo);
    assert all[..|t.log|] == t.log;
    assert FinalLog(s.log, s.todo)[n] == all[n] == all[..|t.log|][n];
  }

  /** A recording call that is given a semaphore makes all its work wait for it: whatever the queues do,
      no batch submitted from that call on, on any queue, has begun before the application satisfied the
      wait. */
  lemma WorkWaitsForApplication(s: Sys, call: ApiCall, steps: seq<Step>, t: Sys, i: nat)
    requires Reachable(s) && |s.log| == |s.st| && s.todo == [] && Records(call, true)
    requires Call(s.ctx, call).answer.Synced? && Runs(Apply(s, Api(call)), steps, t)
    requires |s.log| <= i < |t.log| == |t.st| && t.st[i] != Queued
    ensures |s.log| in t.released && Release(|s.log|) in steps
  {
    hide Call, Reachable, Runs, Inv;
    ReachableInv(s);
    ReachableReleased(s);
    StepInv(s, Api(call));
    var u := Apply(s, Api(call));
    FirstRecorded(s.ctx, call, true, s.log);
    SubmittedBy(u, steps, t, |s.log|);
    InvChained(t);
    HeldBack(t, |s.log|, i);
    InvLengths(u);
    ReleasedInRun(u, steps, t, |s.log|);
  }

  lemma InvChained(t: Sys)
    requires Inv(t)
    ensures Chained(t.log)
  {
    ChainedSoFar(t.log, t.todo);
  }

  lemma InvLengths(t: Sys)
    requires Inv(t)
    ensures |t.log| == |t.st|
  {
  }

  /** A recording call that is given none asks for nothing more of the application: once its first batch is
      submitted, it can begin as soon as the waits of the batches before it on its queue are met. */
  lemma WorkNeedsNoRelease(s: Sys, call: ApiCall, steps: seq<Step>, t: Sys)
    requires Reachable(s) && |s.log| == |s.st| && s.todo == [] && Records(call, false)
    requires Call(s.ctx, call).answer.Synced? && Runs(Apply(s, Api(call)), steps, t)
    requires |s.log| < |t.log| == |t.st| && t.st[|s.log|] == Queued
    requires forall j :: 0 <= j < |s.log| && SameQueue(t.log, j, |s.log|) ==>
      WaitMet(t.log[j], j, t.counter, t.released)
    ensures Enabled(t, Start(|s.log|))
  {
    hide Call, Reachable, Runs, Inv, FinalLog;
    ReachableInv(s);
    StepInv(s, Api(call));
    FirstRecorded(s.ctx, call, false, s.log);
    SubmittedBy(Apply(s, Api(call)), steps, t, |s.log|);
  }

  // ----- The hardware tier

  /** The optical flow engine is used exactly on contexts that have it; hints only there, and only if asked
      for. */
  predicate OfTier(shaderFlow: bool, wantHint: bool, b: Batch) {
    && (b.pass in {Prep, OpticalFlow, RefineWarp} ==> !shaderFlow)
    && (b.pass == FlowWarp ==> shaderFlow)
    && (b.hint ==> !shaderFlow && wantHint)
  }

  ghost predicate AllOfTier(c: Ctx, log: seq<Batch>) {
    forall i :: 0 <= i < |log| ==> OfTier(c.shaderFlow, c.wantHint, log[i])
  }

  predicate HintsFit(c: Ctx) {
    c.useHint ==> !c.shaderFlow && c.wantHint
  }

  lemma RecordedTier(c: Ctx, call: ApiCall, log: seq<Batch>)
    requires AllOfTier(c, log) && HintsFit(c) && (call.RecordGenerate? || call.RecordWarp?)
    requires Call(c, call).answer.Synced?
    ensures AllOfTier(c, FinalLog(log, Call(c, call).events))
  {
    hide FinalLog, Call;
    var bs := Recorded(c, call, log);
    BatchesTier(c, call);
  }

  lemma BatchesTier(c: Ctx, call: ApiCall)
    requires HintsFit(c)
    ensures call.RecordGenerate? ==>
      var bs := GenerateBatches(Ensured(c, call.outcome).0, call.appWait);
      forall i :: 0 <= i < |bs| ==> OfTier(c.shaderFlow, c.wantHint, bs[i])
    ensures call.RecordWarp? ==>
      var bs := WarpBatches(c, call.appWait); forall i :: 0 <= i < |bs| ==> OfTier(c.shaderFlow, c.wantHint, bs[i])
  {
    hide GenerateBatches, Ensured;
    if call.RecordGenerate? {
      EnsuredKeeps(c, call.outcome);
      GenerateTier(Ensured(c, call.outcome).0, call.appWait);
    }
  }

  lemma EnsuredKeeps(c: Ctx, outcome: BuildOutcome)
    requires HintsFit(c)
    ensures SameConfig(c, Ensured(c, outcome).0) && HintsFit(Ensured(c, outcome).0)
  {
  }

  lemma GenerateTier(c: Ctx, appWait: bool)
    requires HintsFit(c)
    ensures var bs := GenerateBatches(c, appWait);
      forall i :: 0 <= i < |bs| ==> OfTier(c.shaderFlow, c.wantHint, bs[i])
  {
  }

  predicate SameConfig(c: Ctx, d: Ctx) {
    d.shaderFlow == c.shaderFlow && d.wantHint == c.wantHint
  }

  /** What every reply keeps: the configuration, and that only an answer with a value submits. */
  predicate Keeps(c: Ctx, r: Reply) {
    SameConfig(c, r.ctx) && HintsFit(r.ctx) && (!r.answer.Synced? ==> NoSubmits(r.events))
  }

  lemma GenerateKeeps(c: Ctx, given: bool, appWait: bool, outcome: BuildOutcome)
    requires HintsFit(c)
    ensures Keeps(c, Generate(c, given, appWait, outcome))
  {
    hide GenerateBatches, Submits, RingWait;
  }

  lemma WarpKeeps(c: Ctx, given: bool, appWait: bool)
    requires HintsFit(c)
    ensures Keeps(c, Warp(c, given, appWait))
  {
    hide WarpBatches, Submits, RingWait;
  }

  lemma UnregisterKeeps(c: Ctx)
    requires HintsFit(c)
    ensures Keeps(c, Unregister(c)) && !Unregister(c).answer.Synced?
  {
  }

  lemma ResizeKeeps(c: Ctx, width: nat, height: nat)
    requires HintsFit(c)
    ensures Keeps(c, ResizeTo(c, width, height)) && !ResizeTo(c, width, height).answer.Synced?
  {
    hide Unregister;
    UnregisterKeeps(c);
  }

  lemma DebugKeeps(c: Ctx, target: bool)
    requires HintsFit(c)
    ensures Keeps(c, DebugView(c, target)) && !DebugView(c, target).answer.Synced?
  {
  }

  lemma RegistrationsKeep(c: Ctx, given: bool, color: bool, output: bool, motion: bool)
    requires HintsFit(c)
    ensures var r := Registered(c, given, color, output, motion); Keeps(c, r) && !r.answer.Synced?
  {
  }

  lemma CallConfig(c: Ctx, call: ApiCall)
    requires HintsFit(c)
    ensures Keeps(c, Call(c, call))
    ensures Call(c, call).answer.Synced? ==> call.RecordGenerate? || call.RecordWarp?
  {
    hide Generate, Warp, Keeps, Unregister, ResizeTo, DebugView, Registered, HintsFit;
    match call
    case RecordGenerate(given, appWait, outcome) => GenerateKeeps(c, given, appWait, outcome);
    case RecordWarp(given, appWait) => WarpKeeps(c, given, appWait);
    case Resize(w, h) => ResizeKeeps(c, w, h);
    case UnregisterAll => UnregisterKeeps(c);
    case SetDebugView(target) => DebugKeeps(c, target);
    case RegisterColor(given) => RegistrationsKeep(c, given, given || c.haveColor, c.haveOutput, c.hasMotion);
    case RegisterOutput(given) => RegistrationsKeep(c, given, c.haveColor, given || c.haveOutput, c.hasMotion);
    case RegisterAux(given, motion) =>
      RegistrationsKeep(c, given, c.haveColor, c.haveOutput, if given then motion else c.hasMotion);
  }

  lemma CallTier(c: Ctx, call: ApiCall, log: seq<Batch>)
    requires AllOfTier(c, log) && HintsFit(c)
    ensures AllOfTier(Call(c, call).ctx, FinalLog(log, Call(c, call).events)) && HintsFit(Call(c, call).ctx)
  {
    hide FinalLog, Call;
    CallConfig(c, call);
    if Call(c, call).answer.Synced? {
      RecordedTier(c, call, log);
    } else {
      FinalLogQuiet(log, Call(c, call).events);
    }
  }

  lemma {:induction false} RunTier(s: Sys, steps: seq<Step>, t: Sys)
    requires Inv(s) && Runs(s, steps, t)
    requires AllOfTier(s.ctx, FinalLog(s.log, s.todo)) && HintsFit(s.ctx)
    ensures AllOfTier(t.ctx, FinalLog(t.log, t.todo)) && HintsFit(t.ctx)
    decreases |steps|
  {
    if steps != [] {
      StepInv(s, steps[0]);
      if steps[0].Api? {
        CallTier(s.ctx, steps[0].call, s.log);
      }
      RunTier(Apply(s, steps[0]), steps[1..], t);
    }
  }

  /** In every run, the optical flow engine works only on a context that has one, the shader computes the
      flow only on one that has not, and a hint is given only on the former and only if it was asked for. */
  lemma TierRespected(t: Sys, i: nat)
    requires Reachable(t) && i < |t.log|
    ensures t.log[i].pass in {Prep, OpticalFlow, RefineWarp} ==> !t.ctx.shaderFlow
    ensures t.log[i].pass == FlowWarp ==> t.ctx.shaderFlow
    ensures t.log[i].hint ==> !t.ctx.shaderFlow && t.ctx.wantHint
  {
    var s: Sys, steps: seq<Step> :| Initial(s) && Runs(s, steps, t);
    InitialInv(s);
    RunTier(s, steps, t);
    var all := FinalLog(t.log, t.todo);
    assert all[..|t.log|] == t.log;
    assert t.log[i] == all[i];
  }

  // ----- What is refused

  /** Exactly when a generate call succeeds, and why it does not. */
  lemma GenerateAnswers(c: Ctx, given: bool, appWait: bool, outcome: BuildOutcome)
    ensures var a := Call(c, RecordGenerate(given, appWait, outcome)).answer;
      var runnable := given && c.automatic;
      var buildable := runnable && !c.ready && c.haveColor && c.haveOutput;
      && (a.Synced? <==> runnable && (c.ready || (buildable && outcome.Built?)))
      && (a == InvalidArgument <==> !runnable)
      && (a == NotRegistered <==> runnable && !c.ready && !buildable)
      && (a == OutOfMemory <==> buildable && outcome == AllocationFails)
      && (a == Internal <==> buildable && outcome == ObjectCreationFails)
  {
    hide GenerateBatches, Submits, RingWait;
  }

  /** A warp needs the flow of a live pipeline: it is never what builds one. */
  lemma WarpAnswers(c: Ctx, given: bool, appWait: bool)
    ensures var a := Call(c, RecordWarp(given, appWait)).answer;
      && (a.Synced? <==> given && c.ready && c.haveColor && c.haveOutput)
      && (a == InvalidArgument <==> !given)
      && (!a.Synced? ==> a == InvalidArgument || a == NotRegistered)
  {
    hide WarpBatches, Submits, RingWait;
  }

  /** A new extent is taken exactly if it is not empty and within the limits. */
  lemma ResizeAnswers(c: Ctx, width: nat, height: nat)
    ensures var r := Call(c, Resize(width, height));
      && (r.answer == Ok <==> 1 <= width <= c.maxWidth && 1 <= height <= c.maxHeight)
      && (r.answer == Ok ==> r.ctx.width == width && r.ctx.height == height && !r.ctx.ready && !r.ctx.haveColor)
      && (r.answer != Ok ==> r.answer == InvalidArgument && r.ctx == c && r.events == [])
  {
  }
}
