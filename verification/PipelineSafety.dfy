/** What holds in every run of the frame pipeline, whatever the interleaving. */
module PipelineSafety {
  import opened Pipeline
  import opened PipelineGpu
  import opened PipelineInvariant
  import opened PipelineProgress

  /** t is reached from a freshly created context by some run. */
  ghost predicate Reachable(t: Sys) {
    exists s: Sys, steps: seq<Step> :: Initial(s) && Runs(s, steps, t)
  }

  lemma ReachableInv(t: Sys)
    requires Reachable(t)
    ensures Inv(t) && Chained(t.log)
  {
    var s: Sys, steps: seq<Step> :| Initial(s) && Runs(s, steps, t);
    InitialInv(s);
    RunInv(s, steps, t);
    ChainedSoFar(t.log, t.todo);
  }

  // ----- The timeline

  /** Every signal operation that can execute takes the counter to the next value, its own. */
  lemma SignalsIncreaseByOne(t: Sys, i: nat)
    requires Reachable(t) && |t.log| == |t.st| && Enabled(t, Signal(i))
    ensures t.log[i].signal == t.counter + 1 == Apply(t, Signal(i)).counter
  {
    ReachableInv(t);
    SignalIsNext(t, i);
    assert ChainedAt(t.log, i);
  }

  /** The batches signalled in a run, in execution order. */
  function SignalTrace(steps: seq<Step>): seq<nat>
    decreases |steps|
  {
    if steps == [] then []
    else (if steps[0].Signal? then [steps[0].i] else []) + SignalTrace(steps[1..])
  }

  ghost predicate CountsFrom(xs: seq<nat>, n: nat) {
    forall k :: 0 <= k < |xs| ==> xs[k] == n + k
  }

  lemma {:induction false} TraceCounts(s: Sys, steps: seq<Step>, t: Sys)
    requires Inv(s) && Runs(s, steps, t)
    ensures CountsFrom(SignalTrace(steps), s.counter) && t.counter == s.counter + |SignalTrace(steps)|
    decreases |steps|
  {
    if steps != [] {
      var u := Apply(s, steps[0]);
      StepInv(s, steps[0]);
      TraceCounts(u, steps[1..], t);
      if steps[0].Signal? {
        ChainedSoFar(s.log, s.todo);
        SignalIsNext(s, steps[0].i);
        SignalInv(s, steps[0].i);
      }
    }
  }

  /** Over a context's whole life the batches signal in submission order, one after the other. */
  lemma SignalsInSubmissionOrder(s: Sys, steps: seq<Step>, t: Sys)
    requires Initial(s) && Runs(s, steps, t)
    ensures CountsFrom(SignalTrace(steps), 0) && t.counter == |SignalTrace(steps)|
  {
    InitialInv(s);
    TraceCounts(s, steps, t);
  }

  /** Every timeline wait of a submitted batch names the signal of an earlier one. */
  lemma WaitsNameSubmittedSignals(t: Sys, i: nat)
    requires Reachable(t) && i < |t.log| && t.log[i].wait.Timeline?
    ensures var v := t.log[i].wait.value; 1 <= v <= i && t.log[v - 1].signal == v
  {
    ReachableInv(t);
    assert ChainedAt(t.log, i);
    assert ChainedAt(t.log, t.log[i].wait.value - 1);
  }

  // ----- Agents never overlap out of order

  /** The last batch before j, at i or later, that is on another queue than j. */
  lemma {:induction false} HandOver(log: seq<Batch>, i: nat, j: nat) returns (m: nat)
    requires i < j < |log| && !SameQueue(log, i, j)
    ensures i <= m < j && !SameQueue(log, m, m + 1) && SameQueue(log, m + 1, j)
    decreases j - i
  {
    if SameQueue(log, i + 1, j) {
      m := i;
    } else {
      m := HandOver(log, i + 1, j);
    }
  }

  lemma OrderedAcross(s: Sys, i: nat, j: nat)
    requires GpuInv(s) && Chained(s.log) && i < j < |s.log|
    requires !SameQueue(s.log, i, j) && s.st[j] != Queued
    ensures s.st[i] == Signalled
  {
    var m := HandOver(s.log, i, j);
    assert ChainedAt(s.log, m + 1);
    assert Unblocked(s.log, s.counter, s.released, j);
    assert WaitMet(s.log[m + 1], m + 1, s.counter, s.released);
  }

  /** Of two batches on different agents, the later submitted one begins only after the earlier one
      has completed and signalled. */
  lemma AgentsOrdered(t: Sys, i: nat, j: nat)
    requires Reachable(t) && i < j < |t.log| == |t.st| && !SameQueue(t.log, i, j) && t.st[j] != Queued
    ensures t.st[i] == Signalled
  {
    ReachableInv(t);
    OrderedAcross(t, i, j);
  }

  /** What the stages share between agents. */
  datatype Resource = Luma | Hint | FlowImages | FlowBuffers | RefinedFlow | OutputImage | FusionIn | FusionOut

  function Writes(b: Batch): set<Resource> {
    var packed: set<Resource> := if b.pack then {FusionIn} else {};
    match b.pass
    case Prep => if b.hint then {Luma, Hint} else {Luma}
    case OpticalFlow => {FlowImages}
    case RefineWarp => {FlowBuffers, RefinedFlow, OutputImage} + packed
    case FlowWarp => {Luma, FlowBuffers, RefinedFlow, OutputImage} + packed
    case WarpOnly => {OutputImage} + packed
    case Fusion => {FusionOut}
    case ResidualAdd => {OutputImage}
  }

  function Reads(b: Batch): set<Resource> {
    match b.pass
    case Prep => {}
    case OpticalFlow => if b.hint then {Luma, Hint} else {Luma}
    case RefineWarp => {FlowImages, FlowBuffers, RefinedFlow, OutputImage}
    case FlowWarp => {Luma, FlowBuffers, RefinedFlow, OutputImage}
    case WarpOnly => {RefinedFlow, OutputImage}
    case Fusion => {FusionIn}
    case ResidualAdd => {OutputImage, FusionOut}
  }

  predicate Conflict(a: Batch, b: Batch) {
    Writes(a) * (Reads(b) + Writes(b)) != {} || Reads(a) * Writes(b) != {}
  }

  /** No data race: two batches on different agents that touch the same resource, one of them writing,
      are never both begun and unfinished, in frames next to each other or further apart. */
  lemma NoRace(t: Sys, i: nat, j: nat)
    requires Reachable(t) && |t.log| == |t.st| && i < |t.log| && j < |t.log| && i != j
    requires !SameQueue(t.log, i, j) && Conflict(t.log[i], t.log[j])
    ensures !(t.st[i] == Running && t.st[j] == Running)
    ensures i < j && t.st[j] != Queued ==> t.st[i] == Signalled
  {
    if i < j {
      if t.st[j] != Queued {
        AgentsOrdered(t, i, j);
      }
    } else if t.st[i] != Queued {
      AgentsOrdered(t, j, i);
    }
  }

  // ----- The ring

  /** A command pool is reset only when every command buffer taken from it has completed; pools and
      interop are destroyed, and live descriptors rewritten, only when nothing at all is pending. */
  lemma PoolsIdleWhenReset(t: Sys, i: nat)
    requires Reachable(t) && |t.log| == |t.st| && t.todo != [] && i < |t.log|
    ensures t.todo[0].ResetPool? && t.log[i].pool == t.todo[0].pool ==> t.st[i] == Signalled
    ensures t.todo[0].DestroyPools? || t.todo[0].RewriteDescriptors? ==> t.st[i] == Signalled
  {
    ReachableInv(t);
    assert EventSafe(t.log, t.counter, t.todo[0]);
  }

  /** When the host is between calls, only the last two recording calls can have work left. */
  lemma AtMostTwoFramesInFlight(t: Sys, i: nat)
    requires Reachable(t) && |t.log| == |t.st| && t.todo == [] && i < |t.log|
    ensures t.st[i] == Signalled || t.log[i].frame == t.ctx.frames - 1 || t.log[i].frame == t.ctx.frames - 2
  {
    ReachableInv(t);
    assert SettledAt(t.ctx, t.log[i], i);
  }

  // ----- What a returned sync value covers

  lemma {:induction false} FinalLogGrows(s: Sys, steps: seq<Step>, t: Sys)
    requires Inv(s) && Runs(s, steps, t)
    ensures FinalLog(s.log, s.todo) <= FinalLog(t.log, t.todo)
    decreases |steps|
  {
    if steps != [] {
      StepInv(s, steps[0]);
      FinalLogGrows(Apply(s, steps[0]), steps[1..], t);
    }
  }

  lemma EnsuredAnswers(c: Ctx, outcome: BuildOutcome)
    ensures !Ensured(c, outcome).1.Synced?
  {
  }

  lemma SyncedValue(c: Ctx, call: ApiCall)
    requires Call(c, call).answer.Synced?
    ensures Call(c, call).answer.value == Call(c, call).ctx.timelineValue
  {
    hide GenerateBatches, WarpBatches, Submits, RingWait, Ensured;
    if call.RecordGenerate? {
      EnsuredAnswers(c, call.outcome);
    }
  }

  /** Once the counter reaches the value a call returned, all batches of that call and of every call
      before it have been submitted, are complete and have signalled. */
  lemma SyncCoversEarlierWork(s: Sys, call: ApiCall, steps: seq<Step>, t: Sys)
    requires Reachable(s) && |s.log| == |s.st| && s.todo == [] && Call(s.ctx, call).answer.Synced?
    requires Runs(Apply(s, Api(call)), steps, t)
    requires t.counter >= Call(s.ctx, call).answer.value
    ensures var issued := FinalLog(s.log, Call(s.ctx, call).events);
      && |issued| == Call(s.ctx, call).answer.value && issued <= t.log && |t.log| == |t.st|
      && forall i :: 0 <= i < |issued| ==> t.st[i] == Signalled
  {
    hide Call, Reachable;
    ReachableInv(s);
    var u := Apply(s, Api(call));
    StepInv(s, Api(call));
    SyncedValue(s.ctx, call);
    FinalLogGrows(u, steps, t);
    RunInv(u, steps, t);
  }

  /** A warp succeeds only if a flow-producing batch of the same pipeline build was submitted. */
  lemma WarpFindsFlow(s: Sys, given: bool, appWait: bool)
    requires Reachable(s) && s.todo == [] && Warp(s.ctx, given, appWait).answer.Synced?
    ensures HasFlow(s.log, s.ctx.build) && Warp(s.ctx, given, appWait).ctx.build == s.ctx.build
  {
    ReachableInv(s);
  }

  // ----- Progress

  predicate AppWaitsMet(s: Sys) {
    forall i :: 0 <= i < |s.log| && s.log[i].wait == AppWait ==> i in s.released
  }

  /** Nothing is left to issue or to execute. */
  predicate Quiescent(s: Sys) {
    s.todo == [] && s.counter == |s.log|
  }

  predicate Internal(step: Step) {
    step.Host? || step.Start? || step.Finish? || step.Signal?
  }

  lemma NextCanStart(s: Sys)
    requires GpuInv(s) && Chained(s.log) && AppWaitsMet(s) && s.counter < |s.log|
    ensures Unblocked(s.log, s.counter, s.released, s.counter)
  {
    forall j | 0 <= j <= s.counter && SameQueue(s.log, j, s.counter)
      ensures WaitMet(s.log[j], j, s.counter, s.released)
    {
      assert ChainedAt(s.log, j);
    }
  }

  /** There is no deadlock: while anything is left and the application's own waits are met, the host
      or the GPU can take a step. */
  lemma CanStep(s: Sys) returns (step: Step)
    requires Reachable(s) && |s.log| == |s.st| && AppWaitsMet(s) && !Quiescent(s)
    ensures Internal(step) && Enabled(s, step)
  {
    ReachableInv(s);
    step := CanStepInv(s);
  }

  lemma CanStepInv(s: Sys) returns (step: Step)
    requires Inv(s) && Chained(s.log) && AppWaitsMet(s) && !Quiescent(s)
    ensures Internal(step) && Enabled(s, step)
  {
    var n := s.counter;
    if n < |s.log| {
      NextCanStart(s);
      step := if s.st[n] == Queued then Start(n) else if s.st[n] == Running then Finish(n) else Signal(n);
    } else {
      assert EventSafe(s.log, s.counter, s.todo[0]);
      step := Host;
    }
  }

  function Remaining(st: Status): nat {
    match st
    case Queued => 3
    case Running => 2
    case Finished => 1
    case Signalled => 0
  }

  function TotalRemaining(st: seq<Status>): nat {
    if st == [] then 0 else TotalRemaining(st[..|st| - 1]) + Remaining(st[|st| - 1])
  }

  lemma {:induction false} RemainingUpdate(st: seq<Status>, i: nat, v: Status)
    requires i < |st|
    ensures TotalRemaining(st[i := v]) + Remaining(st[i]) == TotalRemaining(st) + Remaining(v)
  {
    var front := st[..|st| - 1];
    if i < |st| - 1 {
      RemainingUpdate(front, i, v);
      assert st[i := v][..|st| - 1] == front[i := v];
    } else {
      assert st[i := v][..|st| - 1] == front;
    }
  }

  function Measure(s: Sys): nat {
    4 * |s.todo| + TotalRemaining(s.st)
  }

  /** Every step of the host or the GPU uses up work, so only new API calls can keep a run going. */
  lemma StepsUseUpWork(s: Sys, step: Step)
    requires |s.log| == |s.st| && Enabled(s, step) && Internal(step)
    ensures Measure(Apply(s, step)) < Measure(s)
  {
    match step
    case Host =>
      assert (s.st + [Queued])[..|s.st|] == s.st;
    case Start(i) => RemainingUpdate(s.st, i, Running);
    case Finish(i) => RemainingUpdate(s.st, i, Finished);
    case Signal(i) => RemainingUpdate(s.st, i, Signalled);
  }

  function Unreleased(n: nat, released: set<nat>): nat {
    if n == 0 then 0 else Unreleased(n - 1, released) + if n - 1 in released then 0 else 1
  }

  lemma {:induction false} ReleaseCounts(n: nat, released: set<nat>, i: nat)
    requires i !in released
    ensures Unreleased(n, released + {i}) + (if i < n then 1 else 0) == Unreleased(n, released)
  {
    if n > 0 {
      ReleaseCounts(n - 1, released, i);
    }
  }

  /** The next step towards quiescence: a wait the application still owes, or progress. */
  lemma DrainStep(s: Sys) returns (step: Step)
    requires Inv(s) && !Quiescent(s)
    ensures Enabled(s, step) && !step.Api? && Inv(Apply(s, step))
    ensures FinalLog(Apply(s, step).log, Apply(s, step).todo) == FinalLog(s.log, s.todo)
    ensures Measure(Apply(s, step)) < Measure(s) ||
      (Measure(Apply(s, step)) == Measure(s) &&
       Unreleased(|s.log|, Apply(s, step).released) < Unreleased(|s.log|, s.released) && Apply(s, step).log == s.log)
  {
    ChainedSoFar(s.log, s.todo);
    if AppWaitsMet(s) {
      step := CanStepInv(s);
      StepsUseUpWork(s, step);
    } else {
      var i :| 0 <= i < |s.log| && s.log[i].wait == AppWait && i !in s.released;
      step := Release(i);
      ReleaseCounts(|s.log|, s.released, i);
    }
    StepInv(s, step);
  }

  lemma {:induction false} WorkDrains(s: Sys) returns (steps: seq<Step>, t: Sys)
    requires Inv(s)
    ensures Runs(s, steps, t) && Quiescent(t) && t.log == FinalLog(s.log, s.todo)
    ensures forall k :: 0 <= k < |steps| ==> !steps[k].Api?
    decreases Measure(s), Unreleased(|s.log|, s.released)
  {
    if Quiescent(s) {
      steps, t := [], s;
    } else {
      var step := DrainStep(s);
      var rest, end := WorkDrains(Apply(s, step));
      steps, t := [step] + rest, end;
      assert steps[1..] == rest;
    }
  }

  /** All work completes once the application meets its own waits: from every reachable state, in the
      middle of a call or not, the rest of the call is issued and every batch signals. */
  lemma AllWorkCompletes(s: Sys) returns (steps: seq<Step>, t: Sys)
    requires Reachable(s) && |s.log| == |s.st|
    ensures Runs(s, steps, t) && t.todo == [] && t.log == FinalLog(s.log, s.todo)
    ensures forall k :: 0 <= k < |steps| ==> !steps[k].Api?
    ensures |t.st| == |t.log| && forall i :: 0 <= i < |t.log| ==> t.st[i] == Signalled
  {
    ReachableInv(s);
    steps, t := WorkDrains(s);
    RunInv(s, steps, t);
  }
}
