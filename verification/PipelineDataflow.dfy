/** Each stage reads what the intended earlier stage wrote last. */
module PipelineDataflow {
  import opened Bytes
  import opened Pipeline
  import opened PipelineGpu
  import opened PipelineInvariant
  import opened PipelineProgress
  import opened PipelineSafety

  predicate SameFrame(a: Batch, b: Batch) {
    a.frame == b.frame && a.pool.build == b.pool.build
  }

  predicate IsWarp(p: Pass) {
    p == RefineWarp || p == FlowWarp || p == WarpOnly
  }

  ghost predicate FlowBefore(log: seq<Batch>, i: nat)
    requires i < |log|
  {
    exists k :: 0 <= k < i && ProducesFlow(log[k]) && log[k].pool.build == log[i].pool.build
  }

  /** What comes before a batch of each kind. */
  ghost predicate ShapedAt(cnn: bool, log: seq<Batch>, i: nat)
    requires i < |log|
  {
    match log[i].pass
    case OpticalFlow =>
      i > 0 && log[i - 1].pass == Prep && SameFrame(log[i - 1], log[i]) && log[i - 1].hint == log[i].hint
    case RefineWarp => i > 0 && log[i - 1].pass == OpticalFlow && SameFrame(log[i - 1], log[i])
    case Fusion => i > 0 && IsWarp(log[i - 1].pass) && SameFrame(log[i - 1], log[i]) && log[i - 1].pack == cnn
    case ResidualAdd => i > 0 && log[i - 1].pass == Fusion && SameFrame(log[i - 1], log[i])
    case WarpOnly => FlowBefore(log, i)
    case _ => true
  }

  ghost predicate BuildsInOrder(log: seq<Batch>) {
    forall i, j :: 0 <= i <= j < |log| ==> log[i].pool.build <= log[j].pool.build
  }

  ghost predicate Shaped(cnn: bool, log: seq<Batch>) {
    BuildsInOrder(log) && forall i :: 0 <= i < |log| ==> ShapedAt(cnn, log, i)
  }

  lemma ShapedKept(cnn: bool, log: seq<Batch>, bs: seq<Batch>, i: nat)
    requires i < |log| && ShapedAt(cnn, log, i)
    ensures ShapedAt(cnn, log + bs, i)
  {
    if log[i].pass == WarpOnly {
      var k :| 0 <= k < i && ProducesFlow(log[k]) && log[k].pool.build == log[i].pool.build;
      assert ProducesFlow((log + bs)[k]);
    }
  }

  /** The batches of one recording call, in its build. */
  ghost predicate FrameShaped(c: Ctx, log: seq<Batch>, bs: seq<Batch>) {
    && (forall k :: 0 <= k < |bs| ==> bs[k].pool.build == c.build && bs[k].frame == c.frames)
    && forall k :: |log| <= k < |log + bs| ==> ShapedAt(c.interpolatorCnn, log + bs, k)
  }

  lemma FrameKeepsShape(c: Ctx, log: seq<Batch>, bs: seq<Batch>)
    requires PoolsCovered(c, log) && Shaped(c.interpolatorCnn, log) && FrameShaped(c, log, bs)
    ensures Shaped(c.interpolatorCnn, log + bs)
  {
    forall i | 0 <= i < |log + bs| ensures ShapedAt(c.interpolatorCnn, log + bs, i) {
      if i < |log| {
        ShapedKept(c.interpolatorCnn, log, bs, i);
      }
    }
    forall i, j | 0 <= i <= j < |log + bs| ensures (log + bs)[i].pool.build <= (log + bs)[j].pool.build {
      if i < |log| {
        assert PoolCovered(c, log[i], i);
      }
    }
  }

  lemma GenerateShaped(c: Ctx, log: seq<Batch>, appWait: bool)
    ensures FrameShaped(c, log, GenerateBatches(c, appWait))
  {
    var bs := GenerateBatches(c, appWait);
    forall k | |log| <= k < |log + bs| ensures ShapedAt(c.interpolatorCnn, log + bs, k) {
      assert (log + bs)[k] == bs[k - |log|];
      if k > |log| {
        assert (log + bs)[k - 1] == bs[k - |log| - 1];
      }
    }
  }

  lemma WarpShaped(c: Ctx, log: seq<Batch>, appWait: bool)
    requires HasFlow(log, c.build)
    ensures FrameShaped(c, log, WarpBatches(c, appWait))
  {
    var bs := WarpBatches(c, appWait);
    var f :| 0 <= f < |log| && ProducesFlow(log[f]) && log[f].pool.build == c.build;
    forall k | |log| <= k < |log + bs| ensures ShapedAt(c.interpolatorCnn, log + bs, k) {
      assert (log + bs)[k] == bs[k - |log|];
      if k > |log| {
        assert (log + bs)[k - 1] == bs[k - |log| - 1];
      } else {
        assert ProducesFlow((log + bs)[f]);
      }
    }
  }

  /** A reply that keeps the shape and the interpolator. */
  ghost predicate KeepsShape(c: Ctx, log: seq<Batch>, r: Reply) {
    r.ctx.interpolatorCnn == c.interpolatorCnn && Shaped(c.interpolatorCnn, FinalLog(log, r.events))
  }

  lemma QuietKeepsShape(c: Ctx, log: seq<Batch>, r: Reply)
    requires Shaped(c.interpolatorCnn, log) && r.ctx.interpolatorCnn == c.interpolatorCnn && NoSubmits(r.events)
    ensures KeepsShape(c, log, r)
  {
    FinalLogQuiet(log, r.events);
  }

  lemma GenerateKeepsShape(c: Ctx, given: bool, appWait: bool, outcome: BuildOutcome, log: seq<Batch>)
    requires CtxInv(c, log) && Shaped(c.interpolatorCnn, log)
    ensures KeepsShape(c, log, Generate(c, given, appWait, outcome))
  {
    hide Shaped, FrameShaped, FinalLog, Submits, GenerateBatches;
    var r := Generate(c, given, appWait, outcome);
    var (b, answer) := Ensured(c, outcome);
    EnsuredInv(c, outcome, log);
    if given && c.automatic && answer == Ok {
      var bs := GenerateBatches(b, appWait);
      GenerateShaped(b, log, appWait);
      FrameKeepsShape(b, log, bs);
      FinalLogFrame(log, r.events[..|r.events| - |bs|], bs);
      assert r.events == r.events[..|r.events| - |bs|] + Submits(bs);
    } else {
      QuietKeepsShape(c, log, r);
    }
  }

  lemma WarpKeepsShape(c: Ctx, given: bool, appWait: bool, log: seq<Batch>)
    requires CtxInv(c, log) && Shaped(c.interpolatorCnn, log)
    ensures KeepsShape(c, log, Warp(c, given, appWait))
  {
    hide Shaped, FrameShaped, FinalLog, Submits, WarpBatches;
    var r := Warp(c, given, appWait);
    if r.answer.Synced? {
      var bs := WarpBatches(c, appWait);
      WarpShaped(c, log, appWait);
      FrameKeepsShape(c, log, bs);
      FinalLogFrame(log, r.events[..|r.events| - |bs|], bs);
      assert r.events == r.events[..|r.events| - |bs|] + Submits(bs);
    } else {
      QuietKeepsShape(c, log, r);
    }
  }

  /** Every API call keeps the shape. */
  lemma CallKeepsShape(c: Ctx, call: ApiCall, log: seq<Batch>)
    requires CtxInv(c, log) && Shaped(c.interpolatorCnn, log)
    ensures KeepsShape(c, log, Call(c, call))
  {
    hide CtxInv, Shaped, KeepsShape, Generate, Warp;
    match call
    case RecordGenerate(given, appWait, outcome) => GenerateKeepsShape(c, given, appWait, outcome, log);
    case RecordWarp(given, appWait) => WarpKeepsShape(c, given, appWait, log);
    case Resize(w, h) => QuietKeepsShape(c, log, ResizeTo(c, w, h));
    case UnregisterAll => QuietKeepsShape(c, log, Unregister(c));
    case SetDebugView(target) => QuietKeepsShape(c, log, DebugView(c, target));
    case _ => QuietKeepsShape(c, log, Call(c, call));
  }

  ghost predicate SysShaped(s: Sys) {
    Shaped(s.ctx.interpolatorCnn, FinalLog(s.log, s.todo))
  }

  lemma {:induction false} RunShaped(s: Sys, steps: seq<Step>, t: Sys)
    requires Inv(s) && SysShaped(s) && Runs(s, steps, t)
    ensures SysShaped(t)
    decreases |steps|
  {
    if steps != [] {
      StepInv(s, steps[0]);
      if steps[0].Api? {
        CallKeepsShape(s.ctx, steps[0].call, s.log);
      }
      RunShaped(Apply(s, steps[0]), steps[1..], t);
    }
  }

  lemma ReachableShaped(t: Sys)
    requires Reachable(t)
    ensures Shaped(t.ctx.interpolatorCnn, t.log)
  {
    var s: Sys, steps: seq<Step> :| Initial(s) && Runs(s, steps, t);
    InitialInv(s);
    RunShaped(s, steps, t);
    ShapedSoFar(t.ctx.interpolatorCnn, t.log, FinalLog(t.log, t.todo));
  }

  lemma ShapedSoFar(cnn: bool, log: seq<Batch>, all: seq<Batch>)
    requires Shaped(cnn, all) && log <= all
    ensures Shaped(cnn, log)
  {
    forall i | 0 <= i < |log| ensures ShapedAt(cnn, log, i) {
      assert ShapedAt(cnn, all, i) && log[i] == all[i] && (i > 0 ==> log[i - 1] == all[i - 1]);
      if log[i].pass == WarpOnly {
        var k :| 0 <= k < i && ProducesFlow(all[k]) && all[k].pool.build == all[i].pool.build;
        assert ProducesFlow(log[k]);
      }
    }
  }

  // ----- Who wrote last

  /** The last batch before i that writes r. */
  function LastWriter(log: seq<Batch>, i: nat, r: Resource): Option<nat>
    requires i <= |log|
  {
    if i == 0 then None
    else if r in Writes(log[i - 1]) then Some(i - 1)
    else LastWriter(log, i - 1, r)
  }

  /** What batch i reads in r was last written by its own frame, d batches earlier. */
  predicate FreshFrom(log: seq<Batch>, i: nat, r: Resource, d: nat)
    requires i < |log|
  {
    1 <= d <= i && LastWriter(log, i, r) == Some(i - d) && SameFrame(log[i - d], log[i])
  }

  /** In every run the optical flow reads the luma images, and the hint where it is given one, of its
      own frame, the refinement the flow of its own frame, and the residual add the fusion output of its
      own frame, added to the output image that the warp of its own frame wrote. */
  lemma InputsAreFresh(t: Sys, i: nat)
    requires Reachable(t) && i < |t.log|
    ensures t.log[i].pass == OpticalFlow ==> FreshFrom(t.log, i, Luma, 1)
    ensures t.log[i].pass == OpticalFlow && Hint in Reads(t.log[i]) ==> FreshFrom(t.log, i, Hint, 1)
    ensures t.log[i].pass == RefineWarp ==> FreshFrom(t.log, i, FlowImages, 1)
    ensures t.log[i].pass == ResidualAdd ==> FreshFrom(t.log, i, FusionOut, 1) && FreshFrom(t.log, i, OutputImage, 2)
  {
    ReachableShaped(t);
    assert ShapedAt(t.ctx.interpolatorCnn, t.log, i);
    if t.log[i].pass == ResidualAdd {
      assert ShapedAt(t.ctx.interpolatorCnn, t.log, i - 1);
      assert LastWriter(t.log, i - 1, OutputImage) == Some(i - 2);
    }
  }

  /** The packing of the fusion input asks for the learned interpolator, the fusion's dispatch only for
      the interop: the fusion reads its own frame's input exactly with that interpolator selected. */
  lemma FusionInputFreshIff(t: Sys, i: nat)
    requires Reachable(t) && i < |t.log| && t.log[i].pass == Fusion
    ensures i > 0 && SameFrame(t.log[i - 1], t.log[i])
    ensures LastWriter(t.log, i, FusionIn) == Some(i - 1) <==> t.ctx.interpolatorCnn
  {
    ReachableShaped(t);
    assert ShapedAt(t.ctx.interpolatorCnn, t.log, i);
    LastWriterBelow(t.log, i - 1, FusionIn);
  }

  lemma RunsCons(s: Sys, step: Step, rest: seq<Step>, t: Sys)
    requires |s.log| == |s.st| && Enabled(s, step) && Runs(Apply(s, step), rest, t)
    ensures Runs(s, [step] + rest, t)
  {
    assert ([step] + rest)[1..] == rest;
  }

  /** The frame that the first generate call of a context leaves to its queues. */
  lemma FirstFrame(c: Ctx) returns (b: Ctx, t: Sys)
    requires Fresh(c) && c.automatic
    ensures Reachable(t) && t.log == GenerateBatches(b, false)
    ensures b.interop && b.interpolatorCnn == c.interpolatorCnn
  {
    hide Inv, Generate, GenerateBatches, FinalLog, LastWriter;
    var s := Sys(c, [], [], [], 0, {});
    var color, output, generate :=
      Api(RegisterColor(true)), Api(RegisterOutput(true)), Api(RecordGenerate(true, false, Built(true)));
    InitialInv(s);
    StepInv(s, color);
    var s1 := Apply(s, color);
    StepInv(s1, output);
    var s2 := Apply(s1, output);
    b := Ensured(s2.ctx, Built(true)).0;
    FirstGenerate(s2, b);
    StepInv(s2, generate);
    var rest: seq<Step>;
    rest, t := WorkDrains(Apply(s2, generate));
    RunsCons(s2, generate, rest, t);
    RunsCons(s1, output, [generate] + rest, t);
    RunsCons(s, color, [output] + ([generate] + rest), t);
  }

  lemma FirstGenerate(s: Sys, b: Ctx)
    requires s.ctx.automatic && s.ctx.haveColor && s.ctx.haveOutput && !s.ctx.ready && s.log == []
    requires b == Ensured(s.ctx, Built(true)).0
    ensures FinalLog(s.log, Generate(s.ctx, true, false, Built(true)).events) == GenerateBatches(b, false)
  {
    hide GenerateBatches, FinalLog, Submits;
    var events, bs := Generate(s.ctx, true, false, Built(true)).events, GenerateBatches(b, false);
    FinalLogFrame(s.log, events[..|events| - |bs|], bs);
    assert events == events[..|events| - |bs|] + Submits(bs);
  }

  /** With another interpolator it does happen: the first frame of every such context whose CUDA import
      succeeds runs a fusion whose input no batch has ever written. */
  lemma StaleFusionInput(c: Ctx) returns (t: Sys, i: nat)
    requires Fresh(c) && c.automatic && !c.interpolatorCnn
    ensures Reachable(t) && i < |t.log| && t.log[i].pass == Fusion
    ensures FusionIn in Reads(t.log[i]) && LastWriter(t.log, i, FusionIn) == None
  {
    var b: Ctx;
    b, t := FirstFrame(c);
    i := |t.log| - 2;
    NeverWritten(t.log, i, FusionIn);
  }

  lemma {:induction false} NeverWritten(log: seq<Batch>, i: nat, r: Resource)
    requires i <= |log| && forall k :: 0 <= k < i ==> r !in Writes(log[k])
    ensures LastWriter(log, i, r) == None
  {
    if i > 0 {
      NeverWritten(log, i - 1, r);
    }
  }

  lemma {:induction false} LastWriterBelow(log: seq<Batch>, i: nat, r: Resource)
    requires i <= |log|
    ensures LastWriter(log, i, r).Some? ==>
      LastWriter(log, i, r).value < i && r in Writes(log[LastWriter(log, i, r).value])
  {
    if i > 0 {
      LastWriterBelow(log, i - 1, r);
    }
  }

  lemma {:induction false} LastWriterAfter(log: seq<Batch>, i: nat, r: Resource, k: nat)
    requires k < i <= |log| && r in Writes(log[k])
    ensures LastWriter(log, i, r).Some? && k <= LastWriter(log, i, r).value < i
  {
    if i - 1 > k && r !in Writes(log[i - 1]) {
      LastWriterAfter(log, i - 1, r, k);
    }
  }

  /** A warp-only pass reads a flow that some generate call of the same pipeline build refined. */
  lemma WarpReadsItsBuildsFlow(t: Sys, i: nat)
    requires Reachable(t) && i < |t.log| && t.log[i].pass == WarpOnly
    ensures var w := LastWriter(t.log, i, RefinedFlow);
      w.Some? && w.value < i && ProducesFlow(t.log[w.value]) && t.log[w.value].pool.build == t.log[i].pool.build
  {
    ReachableShaped(t);
    assert ShapedAt(t.ctx.interpolatorCnn, t.log, i);
    var k :| 0 <= k < i && ProducesFlow(t.log[k]) && t.log[k].pool.build == t.log[i].pool.build;
    LastWriterAfter(t.log, i, RefinedFlow, k);
    LastWriterBelow(t.log, i, RefinedFlow);
    var w := LastWriter(t.log, i, RefinedFlow).value;
    assert t.log[k].pool.build <= t.log[w].pool.build <= t.log[i].pool.build;
  }
}
