/** The context object of the C API: its methods update the fields in place and issue driver calls, and
    each is proved to do exactly what Pipeline says of its call. */
module PipelineContext {
  import opened Pipeline

  lemma SubmitsSnoc(bs: seq<Batch>, b: Batch)
    ensures Submits(bs + [b]) == Submits(bs) + [Submit(b)]
  {
    assert (bs + [b])[..|bs|] == bs;
  }

  lemma {:induction false} SubmitsAppend(a: seq<Batch>, b: seq<Batch>)
    ensures Submits(a + b) == Submits(a) + Submits(b)
    decreases |b|
  {
    if b == [] {
      assert a + b == a;
    } else {
      var front, last := b[..|b| - 1], b[|b| - 1];
      SubmitsAppend(a, front);
      SubmitsSnoc(a + front, last);
      SubmitsSnoc(front, last);
      assert (a + front) + [last] == a + b && front + [last] == b;
    }
  }

  class NvofgContext {
    const automatic: bool
    const shaderFlow: bool
    const interpolatorCnn: bool
    const wantHint: bool
    const maxWidth: nat
    const maxHeight: nat
    var width: nat
    var height: nat
    var haveColor: bool
    var haveOutput: bool
    var hasMotion: bool
    var haveDebugTarget: bool
    var pipelineReady: bool
    var useHint: bool
    var cnnInterop: bool
    var timelineValue: nat
    const slotSignal: array<nat>
    var frameIndex: nat

    ghost var build: nat
    ghost var frames: nat
    ghost var settled: nat

    /** The driver calls issued so far. */
    ghost var issued: seq<Event>

    ghost predicate Valid()
      reads this, slotSignal
    {
      slotSignal.Length == K_RING && frameIndex < U32
    }

    ghost function View(): Ctx
      requires Valid()
      reads this, slotSignal
    {
      Ctx(automatic, shaderFlow, interpolatorCnn, wantHint, maxWidth, maxHeight, width, height,
          haveColor, haveOutput, hasMotion, haveDebugTarget, pipelineReady, useHint, cnnInterop,
          timelineValue, slotSignal[..], frameIndex, build, frames, settled)
    }

    constructor (automatic: bool, shaderFlow: bool, interpolatorCnn: bool, wantHint: bool,
                 maxWidth: nat, maxHeight: nat, width: nat, height: nat)
      ensures Valid() && Fresh(View()) && issued == []
      ensures View().automatic == automatic && View().shaderFlow == shaderFlow
    {
      this.automatic, this.shaderFlow, this.interpolatorCnn := automatic, shaderFlow, interpolatorCnn;
      this.wantHint, this.maxWidth, this.maxHeight := wantHint, maxWidth, maxHeight;
      this.width, this.height := width, height;
      haveColor, haveOutput, hasMotion, haveDebugTarget := false, false, false, false;
      pipelineReady, useHint, cnnInterop := false, false, false;
      timelineValue, frameIndex, build, frames, settled, issued := 0, 0, 0, 0, 0, [];
      slotSignal := new nat[K_RING](i => 0);
    }

    method RegisterColor(given: bool) returns (answer: Answer)
      requires Valid()
      modifies this
      ensures Valid()
      ensures Reply(View(), issued, answer) ==
        After(old(View()), old(issued), Call(old(View()), ApiCall.RegisterColor(given)))
    {
      if !given { return InvalidArgument; }
      haveColor := true;
      return Ok;
    }

    method RegisterAux(given: bool, motion: bool) returns (answer: Answer)
      requires Valid()
      modifies this
      ensures Valid()
      ensures Reply(View(), issued, answer) ==
        After(old(View()), old(issued), Call(old(View()), ApiCall.RegisterAux(given, motion)))
    {
      if !given { return InvalidArgument; }
      hasMotion := motion;
      return Ok;
    }

    method RegisterOutput(given: bool) returns (answer: Answer)
      requires Valid()
      modifies this
      ensures Valid()
      ensures Reply(View(), issued, answer) ==
        After(old(View()), old(issued), Call(old(View()), ApiCall.RegisterOutput(given)))
    {
      if !given { return InvalidArgument; }
      haveOutput := true;
      return Ok;
    }

    method SetDebugView(target: bool) returns (answer: Answer)
      requires Valid()
      modifies this
      ensures Valid()
      ensures Reply(View(), issued, answer) ==
        After(old(View()), old(issued), Call(old(View()), ApiCall.SetDebugView(target)))
    {
      haveDebugTarget := target;
      if pipelineReady && haveDebugTarget {
        issued := issued + [WaitIdle, RewriteDescriptors];
      }
      return Ok;
    }

    method ResetRing()
      requires Valid()
      modifies slotSignal, this`frameIndex
      ensures Valid() && View() == old(View()).(slotSignal := [0, 0], frameIndex := 0)
    {
      frameIndex := 0;
      var i := 0;
      while i < K_RING
        modifies slotSignal
        invariant 0 <= i <= K_RING
        invariant forall j :: 0 <= j < i ==> slotSignal[j] == 0
      {
        slotSignal[i] := 0;
        i := i + 1;
      }
    }

    /** destroyPipeline. */
    method DestroyPipeline()
      requires Valid()
      modifies this, slotSignal
      ensures Valid() && View() == TornDown(old(View())) && issued == old(issued) + [DestroyPools(old(build))]
    {
      issued := issued + [DestroyPools(build)];
      ResetRing();
      EndBuild();
    }

    method EndBuild()
      requires Valid()
      modifies this`cnnInterop, this`pipelineReady, this`build, this`settled
      ensures View() ==
        old(View()).(interop := false, ready := false, build := old(build) + 1, settled := timelineValue)
    {
      cnnInterop := false;
      pipelineReady := false;
      build := build + 1;
      settled := timelineValue;
    }

    method UnregisterAll()
      requires Valid()
      modifies this, slotSignal
      ensures Valid()
      ensures Reply(View(), issued, Ok) ==
        After(old(View()), old(issued), Call(old(View()), ApiCall.UnregisterAll))
    {
      if pipelineReady {
        issued := issued + [WaitIdle];
        DestroyPipeline();
      }
      ClearRegistrations();
    }

    method ClearRegistrations()
      requires Valid()
      modifies this`haveColor, this`haveOutput, this`hasMotion, this`haveDebugTarget
      ensures Valid()
      ensures View() ==
        old(View()).(haveColor := false, haveOutput := false, hasMotion := false, haveDebugTarget := false)
    {
      haveColor, haveOutput, hasMotion, haveDebugTarget := false, false, false, false;
    }

    method Resize(w: nat, h: nat) returns (answer: Answer)
      requires Valid()
      modifies this, slotSignal
      ensures Valid()
      ensures Reply(View(), issued, answer) ==
        After(old(View()), old(issued), Call(old(View()), ApiCall.Resize(w, h)))
    {
      if w == 0 || h == 0 { return InvalidArgument; }
      if w > maxWidth || h > maxHeight { return InvalidArgument; }
      UnregisterAll();
      width, height := w, h;
      return Ok;
    }

    /** ensurePipeline; `outcome` is what the driver makes of the object creations. */
    method EnsurePipeline(outcome: BuildOutcome) returns (answer: Answer)
      requires Valid()
      modifies this
      ensures Valid() && (View(), answer) == Ensured(old(View()), outcome) && issued == old(issued)
    {
      if pipelineReady { return Ok; }
      if !haveColor || !haveOutput { return NotRegistered; }
      useHint := !shaderFlow && wantHint && hasMotion;
      match outcome
      case AllocationFails => return OutOfMemory;
      case ObjectCreationFails => return Internal;
      case Built(interop) =>
        pipelineReady := true;
        cnnInterop := interop;
        return Ok;
    }

    /** submitTimeline, or the CUDA dispatch. */
    method SubmitTimeline(pass: Pass, wait: Wait, signal: nat)
      requires Valid()
      modifies this`issued
      ensures issued == old(issued) + [Submit(BatchOf(View(), pass, wait, signal))]
    {
      issued := issued + [Submit(BatchOf(View(), pass, wait, signal))];
    }

    /** cnnDispatchResidual: the last value that will be signalled. */
    method CnnDispatchResidual(warpVal: nat) returns (v: nat)
      requires Valid()
      modifies this`issued
      ensures issued == old(issued) + Submits(Residual(View(), warpVal)) && v == warpVal + |Residual(View(), warpVal)|
    {
      if !cnnInterop { return warpVal; }
      SubmitTimeline(Fusion, Timeline(warpVal), warpVal + 1);
      var addVal := warpVal + 2;
      SubmitTimeline(ResidualAdd, Timeline(warpVal + 1), addVal);
      ghost var bs := Residual(View(), warpVal);
      SubmitsSnoc([], bs[0]);
      SubmitsSnoc([bs[0]], bs[1]);
      assert bs == [bs[0]] + [bs[1]] && [bs[0]] == [] + [bs[0]];
      return addVal;
    }

    /** The host wait for the ring slot. */
    method AwaitSlot() returns (slot: nat)
      requires Valid()
      modifies this`issued
      ensures slot == SlotOf(View()) && issued == old(issued) + RingWait(slotSignal[slot])
    {
      slot := frameIndex % K_RING;
      if slotSignal[slot] != 0 {
        issued := issued + [WaitTimeline(slotSignal[slot])];
      }
    }

    /** The bookkeeping that ends every recording call. */
    method FinishFrame(slot: nat, last: nat)
      requires Valid() && slot == SlotOf(View()) && last >= timelineValue
      modifies this`frameIndex, this`timelineValue, this`frames, this`settled, slotSignal
      ensures Valid() && View() == Advanced(old(View()), last - old(timelineValue))
    {
      settled := Max(settled, slotSignal[slot]);
      slotSignal[slot] := last;
      frameIndex := (frameIndex + 1) % U32;
      timelineValue := last;
      frames := frames + 1;
    }

    method RecordGenerate(given: bool, appWait: bool, outcome: BuildOutcome) returns (answer: Answer)
      requires Valid()
      modifies this, slotSignal
      ensures Valid()
      ensures Reply(View(), issued, answer) ==
        After(old(View()), old(issued), Generate(old(View()), given, appWait, outcome))
    {
      if !given { return InvalidArgument; }
      if !automatic { return InvalidArgument; }
      var r := EnsurePipeline(outcome);
      if r != Ok { return r; }
      var last := RecordFrame(appWait);
      return Synced(last);
    }

    /** The submissions of a generate call, on either tier. */
    method SubmitStages(appWait: bool) returns (last: nat)
      requires Valid()
      modifies this`issued
      ensures issued == old(issued) + Submits(GenerateBatches(View(), appWait))
      ensures last == timelineValue + |GenerateBatches(View(), appWait)|
    {
      hide GenerateBatches, Submits, Residual;
      var base := timelineValue;
      if shaderFlow {
        SubmitTimeline(FlowWarp, AppOrNone(appWait), base + 1);
        last := CnnDispatchResidual(base + 1);
        ShaderEvents(View(), appWait, old(issued), issued);
      } else {
        SubmitTimeline(Prep, AppOrNone(appWait), base + 1);
        SubmitTimeline(OpticalFlow, Timeline(base + 1), base + 2);
        SubmitTimeline(RefineWarp, Timeline(base + 2), base + 3);
        last := CnnDispatchResidual(base + 3);
        FlowQueueEvents(View(), appWait, old(issued), issued);
      }
      FrameLength(View(), appWait);
    }

    /** The part of a generate call after the checks: ring wait, pool resets, submissions, bookkeeping. */
    method RecordFrame(appWait: bool) returns (last: nat)
      requires Valid()
      modifies this`issued, this`frameIndex, this`timelineValue, this`frames, this`settled, slotSignal
      ensures Valid() && View() == Advanced(old(View()), |GenerateBatches(old(View()), appWait)|)
      ensures last == timelineValue
      ensures issued == old(issued) + (RingWait(old(slotSignal[SlotOf(View())])) +
        [ResetPool(Pool(build, ComputeQueue, old(SlotOf(View())))),
         ResetPool(Pool(build, FlowQueue, old(SlotOf(View()))))] +
        Submits(GenerateBatches(old(View()), appWait)))
    {
      hide GenerateBatches, Submits;
      var slot := AwaitSlot();
      issued := issued + [ResetPool(Pool(build, ComputeQueue, slot))];
      issued := issued + [ResetPool(Pool(build, FlowQueue, slot))];
      last := SubmitStages(appWait);
      FinishFrame(slot, last);
    }

    method RecordWarp(given: bool, appWait: bool) returns (answer: Answer)
      requires Valid()
      modifies this, slotSignal
      ensures Valid()
      ensures Reply(View(), issued, answer) ==
        After(old(View()), old(issued), Warp(old(View()), given, appWait))
    {
      if !given { return InvalidArgument; }
      if !pipelineReady || !haveColor || !haveOutput { return NotRegistered; }
      var last := RecordWarpFrame(appWait);
      return Synced(last);
    }

    method RecordWarpFrame(appWait: bool) returns (last: nat)
      requires Valid()
      modifies this`issued, this`frameIndex, this`timelineValue, this`frames, this`settled, slotSignal
      ensures Valid() && View() == Advanced(old(View()), |WarpBatches(old(View()), appWait)|) && last == timelineValue
      ensures issued == old(issued) + (RingWait(old(slotSignal[SlotOf(View())])) +
        [ResetPool(Pool(build, ComputeQueue, old(SlotOf(View()))))] + Submits(WarpBatches(old(View()), appWait)))
    {
      hide WarpBatches, Submits, Residual;
      var slot := AwaitSlot();
      issued := issued + [ResetPool(Pool(build, ComputeQueue, slot))];
      last := SubmitWarp(appWait);
      FinishFrame(slot, last);
    }

    method SubmitWarp(appWait: bool) returns (last: nat)
      requires Valid()
      modifies this`issued
      ensures issued == old(issued) + Submits(WarpBatches(View(), appWait))
      ensures last == timelineValue + |WarpBatches(View(), appWait)|
    {
      hide WarpBatches, Submits, Residual;
      SubmitTimeline(WarpOnly, AppOrNone(appWait), timelineValue + 1);
      last := CnnDispatchResidual(timelineValue + 1);
      WarpEvents(View(), appWait, old(issued), issued);
      FrameLength(View(), appWait);
    }
  }

  /** The state and the events after a reply, on top of the events issued before. */
  function After(c: Ctx, issued: seq<Event>, r: Reply): Reply {
    Reply(r.ctx, issued + r.events, r.answer)
  }

  lemma FrameLength(c: Ctx, appWait: bool)
    ensures |GenerateBatches(c, appWait)| ==
      (if c.shaderFlow then 1 + |Residual(c, c.timelineValue + 1)| else 3 + |Residual(c, c.timelineValue + 3)|)
    ensures |WarpBatches(c, appWait)| == 1 + |Residual(c, c.timelineValue + 1)|
  {
  }

  lemma ShaderEvents(c: Ctx, appWait: bool, before: seq<Event>, after: seq<Event>)
    requires c.shaderFlow
    requires after == before + [Submit(BatchOf(c, FlowWarp, AppOrNone(appWait), c.timelineValue + 1))]
      + Submits(Residual(c, c.timelineValue + 1))
    ensures after == before + Submits(GenerateBatches(c, appWait))
  {
    var bs := GenerateBatches(c, appWait);
    SubmitsAppend(bs[..1], Residual(c, c.timelineValue + 1));
    SubmitsSnoc([], bs[0]);
    assert bs[..1] == [] + [bs[0]] && bs == bs[..1] + Residual(c, c.timelineValue + 1);
  }

  lemma FlowQueueEvents(c: Ctx, appWait: bool, before: seq<Event>, after: seq<Event>)
    requires !c.shaderFlow
    requires after == before + [Submit(BatchOf(c, Prep, AppOrNone(appWait), c.timelineValue + 1))]
      + [Submit(BatchOf(c, OpticalFlow, Timeline(c.timelineValue + 1), c.timelineValue + 2))]
      + [Submit(BatchOf(c, RefineWarp, Timeline(c.timelineValue + 2), c.timelineValue + 3))]
      + Submits(Residual(c, c.timelineValue + 3))
    ensures after == before + Submits(GenerateBatches(c, appWait))
  {
    var bs := GenerateBatches(c, appWait);
    SubmitsAppend(bs[..3], Residual(c, c.timelineValue + 3));
    SubmitsSnoc([], bs[0]);
    SubmitsSnoc([bs[0]], bs[1]);
    SubmitsSnoc([bs[0], bs[1]], bs[2]);
    assert [bs[0]] == [] + [bs[0]] && [bs[0], bs[1]] == [bs[0]] + [bs[1]];
    assert bs[..3] == [bs[0], bs[1]] + [bs[2]] && bs == bs[..3] + Residual(c, c.timelineValue + 3);
  }

  lemma WarpEvents(c: Ctx, appWait: bool, before: seq<Event>, after: seq<Event>)
    requires after == before + [Submit(BatchOf(c, WarpOnly, AppOrNone(appWait), c.timelineValue + 1))]
      + Submits(Residual(c, c.timelineValue + 1))
    ensures after == before + Submits(WarpBatches(c, appWait))
  {
    var bs := WarpBatches(c, appWait);
    SubmitsAppend(bs[..1], Residual(c, c.timelineValue + 1));
    SubmitsSnoc([], bs[0]);
    assert bs[..1] == [] + [bs[0]] && bs == bs[..1] + Residual(c, c.timelineValue + 1);
  }
}
