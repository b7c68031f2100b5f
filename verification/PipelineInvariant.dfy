/** What every API call keeps: a relation between the context and all the batches submitted over its
    whole life. It does not mention the GPU's progress. */
module PipelineInvariant {
  import opened Pipeline
  import opened PipelineGpu

  /** Batch i signals i + 1, waits only for earlier batches, and is ordered after batch i - 1 by its
      queue or by the timeline. */
  predicate ChainedAt(log: seq<Batch>, i: nat)
    requires i < |log|
  {
    && log[i].signal == i + 1
    && (log[i].wait.Timeline? ==> 1 <= log[i].wait.value <= i)
    && (i > 0 ==> SameQueue(log, i - 1, i) || log[i].wait == Timeline(i))
  }

  ghost predicate Chained(log: seq<Batch>) {
    forall i :: 0 <= i < |log| ==> ChainedAt(log, i)
  }

  /** Between calls the last batch is on the compute queue. */
  predicate EndsOnCompute(log: seq<Batch>) {
    log != [] ==> QueueOf(log[|log| - 1].pass) == ComputeQueue
  }

  /** A batch of the current build is covered by its slot's signal value. */
  predicate PoolCovered(c: Ctx, b: Batch, i: nat) {
    && b.pool.slot < K_RING && b.pool.build <= c.build && b.pool.queue == QueueOf(b.pass)
    && (b.pool.build == c.build ==> i < c.slotSignal[b.pool.slot])
  }

  ghost predicate PoolsCovered(c: Ctx, log: seq<Batch>) {
    forall i :: 0 <= i < |log| ==> PoolCovered(c, log[i], i)
  }

  predicate RingOk(c: Ctx) {
    && c.slotSignal[0] <= c.timelineValue && c.slotSignal[1] <= c.timelineValue
    && c.frameIndex < U32 && c.settled <= c.timelineValue
    && (!c.ready ==> c.slotSignal == [0, 0])
  }

  /** How far the host's waits reach back: everything but the last frame is settled or covered by
      the slot that is next in line, and everything but the last two frames is settled. */
  predicate SettledAt(c: Ctx, b: Batch, i: nat) {
    && b.frame < c.frames
    && (i < c.settled || i < c.slotSignal[1 - SlotOf(c)])
    && (b.frame + 1 < c.frames ==> i < c.settled || i < c.slotSignal[SlotOf(c)])
    && (b.frame + 2 < c.frames ==> i < c.settled)
  }

  ghost predicate Settled(c: Ctx, log: seq<Batch>) {
    forall i :: 0 <= i < |log| ==> SettledAt(c, log[i], i)
  }

  predicate ProducesFlow(b: Batch) {
    b.pass == RefineWarp || b.pass == FlowWarp
  }

  ghost predicate HasFlow(log: seq<Batch>, build: nat) {
    exists i :: 0 <= i < |log| && ProducesFlow(log[i]) && log[i].pool.build == build
  }

  ghost predicate CtxInv(c: Ctx, log: seq<Batch>) {
    && RingInv(c, log)
    && (c.ready ==> HasFlow(log, c.build))
  }

  ghost predicate RingInv(c: Ctx, log: seq<Batch>) {
    && c.timelineValue == |log| && RingOk(c)
    && Chained(log) && EndsOnCompute(log)
    && PoolsCovered(c, log) && Settled(c, log)
  }

  // ----- One recording call

  /** The shape of the batches of one recording call: a first one on the compute queue, each further
      one waiting for the one before, the last one again on the compute queue. */
  predicate FrameAt(c: Ctx, bs: seq<Batch>, k: nat)
    requires k < |bs|
  {
    && bs[k].signal == c.timelineValue + k + 1
    && bs[k].pool == Pool(c.build, QueueOf(bs[k].pass), SlotOf(c)) && bs[k].frame == c.frames
    && (if k == 0 then QueueOf(bs[k].pass) == ComputeQueue && !bs[k].wait.Timeline?
        else bs[k].wait == Timeline(c.timelineValue + k))
  }

  ghost predicate IsFrame(c: Ctx, bs: seq<Batch>) {
    && bs != [] && QueueOf(bs[|bs| - 1].pass) == ComputeQueue
    && forall k :: 0 <= k < |bs| ==> FrameAt(c, bs, k)
  }

  lemma GenerateIsFrame(c: Ctx, appWait: bool)
    ensures IsFrame(c, GenerateBatches(c, appWait))
  {
    var bs := GenerateBatches(c, appWait);
    assert FrameAt(c, bs, 0);
    forall k | 0 <= k < |bs| ensures FrameAt(c, bs, k) {
    }
  }

  lemma WarpIsFrame(c: Ctx, appWait: bool)
    ensures IsFrame(c, WarpBatches(c, appWait))
  {
    var bs := WarpBatches(c, appWait);
    forall k | 0 <= k < |bs| ensures FrameAt(c, bs, k) {
    }
  }

  lemma FrameChained(c: Ctx, log: seq<Batch>, bs: seq<Batch>)
    requires Chained(log) && EndsOnCompute(log) && c.timelineValue == |log| && IsFrame(c, bs)
    ensures Chained(log + bs) && EndsOnCompute(log + bs)
  {
    forall i | 0 <= i < |log + bs| ensures ChainedAt(log + bs, i) {
      if i < |log| {
        assert ChainedAt(log, i);
      } else {
        assert FrameAt(c, bs, i - |log|);
      }
    }
  }

  lemma FramePools(c: Ctx, log: seq<Batch>, bs: seq<Batch>)
    requires c.timelineValue == |log| && RingOk(c) && PoolsCovered(c, log) && IsFrame(c, bs)
    ensures PoolsCovered(Advanced(c, |bs|), log + bs)
  {
    var d := Advanced(c, |bs|);
    forall i | 0 <= i < |log + bs| ensures PoolCovered(d, (log + bs)[i], i) {
      if i < |log| {
        assert PoolCovered(c, log[i], i);
      } else {
        assert FrameAt(c, bs, i - |log|);
      }
    }
  }

  lemma FrameSettled(c: Ctx, log: seq<Batch>, bs: seq<Batch>)
    requires c.timelineValue == |log| && RingOk(c) && Settled(c, log) && IsFrame(c, bs)
    ensures Settled(Advanced(c, |bs|), log + bs)
  {
    var d := Advanced(c, |bs|);
    forall i | 0 <= i < |log + bs| ensures SettledAt(d, (log + bs)[i], i) {
      if i < |log| {
        assert SettledAt(c, log[i], i);
      } else {
        assert FrameAt(c, bs, i - |log|);
      }
    }
  }

  lemma FrameInv(c: Ctx, log: seq<Batch>, bs: seq<Batch>)
    requires RingInv(c, log) && c.ready && IsFrame(c, bs)
    ensures RingInv(Advanced(c, |bs|), log + bs)
  {
    FrameChained(c, log, bs);
    FramePools(c, log, bs);
    FrameSettled(c, log, bs);
  }

  // ----- Every API call

  /** All batches submitted once the remaining events have been issued. */
  function FinalLog(log: seq<Batch>, todo: seq<Event>): (r: seq<Batch>)
    ensures |log| <= |r| && r[..|log|] == log
    decreases |todo|
  {
    if todo == [] then log
    else if todo[0].Submit? then FinalLog(log + [todo[0].batch], todo[1..])
    else FinalLog(log, todo[1..])
  }

  lemma {:induction false} FinalLogSubmits(log: seq<Batch>, bs: seq<Batch>)
    ensures FinalLog(log, Submits(bs)) == log + bs
    decreases |bs|
  {
    if bs == [] {
      assert log + bs == log;
    } else {
      var front, last := bs[..|bs| - 1], bs[|bs| - 1];
      FinalLogSubmits(log, front);
      FinalLogAppend(log, Submits(front), [Submit(last)]);
      assert (log + front) + [last] == log + bs;
      assert [Submit(last)][1..] == [];
      assert FinalLog(log + front, [Submit(last)]) == (log + front) + [last];
    }
  }

  lemma {:induction false} FinalLogAppend(log: seq<Batch>, a: seq<Event>, b: seq<Event>)
    ensures FinalLog(log, a + b) == FinalLog(FinalLog(log, a), b)
    decreases |a|
  {
    if a == [] {
      assert a + b == b;
    } else {
      assert (a + b)[1..] == a[1..] + b;
      FinalLogAppend(if a[0].Submit? then log + [a[0].batch] else log, a[1..], b);
    }
  }

  predicate NoSubmits(es: seq<Event>) {
    forall i :: 0 <= i < |es| ==> !es[i].Submit?
  }

  lemma {:induction false} FinalLogQuiet(log: seq<Batch>, es: seq<Event>)
    requires NoSubmits(es)
    ensures FinalLog(log, es) == log
    decreases |es|
  {
    if es != [] {
      FinalLogQuiet(log, es[1..]);
    }
  }

  lemma FinalLogFrame(log: seq<Batch>, head: seq<Event>, bs: seq<Batch>)
    requires NoSubmits(head)
    ensures FinalLog(log, head + Submits(bs)) == log + bs
  {
    FinalLogAppend(log, head, Submits(bs));
    FinalLogQuiet(log, head);
    FinalLogSubmits(log, bs);
  }

  /** The fields the invariant reads. */
  predicate SameProtocol(c: Ctx, d: Ctx) {
    && c.timelineValue == d.timelineValue && c.slotSignal == d.slotSignal && c.frameIndex == d.frameIndex
    && c.build == d.build && c.frames == d.frames && c.settled == d.settled
  }

  lemma EnsuredInv(c: Ctx, outcome: BuildOutcome, log: seq<Batch>)
    requires CtxInv(c, log)
    ensures var (b, answer) := Ensured(c, outcome);
      RingInv(b, log) && SameProtocol(c, b) && (answer == Ok <==> b.ready) && (answer != Ok ==> CtxInv(b, log))
  {
    var (b, answer) := Ensured(c, outcome);
  }

  lemma FlowAppended(c: Ctx, log: seq<Batch>, appWait: bool)
    ensures HasFlow(log + GenerateBatches(c, appWait), c.build)
  {
    var bs := GenerateBatches(c, appWait);
    var k := if c.shaderFlow then 0 else 2;
    assert ProducesFlow((log + bs)[|log| + k]);
  }

  lemma FlowKept(log: seq<Batch>, bs: seq<Batch>, build: nat)
    requires HasFlow(log, build)
    ensures HasFlow(log + bs, build)
  {
    var i :| 0 <= i < |log| && ProducesFlow(log[i]) && log[i].pool.build == build;
    assert ProducesFlow((log + bs)[i]);
  }

  lemma GenerateInv(c: Ctx, given: bool, appWait: bool, outcome: BuildOutcome, log: seq<Batch>)
    requires CtxInv(c, log)
    ensures var r := Generate(c, given, appWait, outcome); CtxInv(r.ctx, FinalLog(log, r.events))
  {
    hide GenerateBatches, Submits, FinalLog;
    var r := Generate(c, given, appWait, outcome);
    EnsuredInv(c, outcome, log);
    var (b, answer) := Ensured(c, outcome);
    if given && c.automatic && answer == Ok {
      var bs := GenerateBatches(b, appWait);
      GenerateIsFrame(b, appWait);
      FrameInv(b, log, bs);
      FlowAppended(b, log, appWait);
      FinalLogFrame(log, r.events[..|r.events| - |bs|], bs);
      assert r.events == r.events[..|r.events| - |bs|] + Submits(bs);
    } else {
      FinalLogQuiet(log, r.events);
    }
  }

  lemma WarpInv(c: Ctx, given: bool, appWait: bool, log: seq<Batch>)
    requires CtxInv(c, log)
    ensures var r := Warp(c, given, appWait); CtxInv(r.ctx, FinalLog(log, r.events))
  {
    var r := Warp(c, given, appWait);
    if r.answer.Synced? {
      var bs := WarpBatches(c, appWait);
      WarpIsFrame(c, appWait);
      FrameInv(c, log, bs);
      FlowKept(log, bs, c.build);
      FinalLogFrame(log, r.events[..|r.events| - |bs|], bs);
      assert r.events == r.events[..|r.events| - |bs|] + Submits(bs);
    }
  }

  lemma UnregisterInv(c: Ctx, log: seq<Batch>)
    requires CtxInv(c, log)
    ensures var r := Unregister(c); CtxInv(r.ctx, log) && FinalLog(log, r.events) == log
  {
    var r := Unregister(c);
    FinalLogQuiet(log, r.events);
  }

  /** Every API call keeps the invariant, counting what it is still about to submit. */
  lemma CallInv(c: Ctx, call: ApiCall, log: seq<Batch>)
    requires CtxInv(c, log)
    ensures CtxInv(Call(c, call).ctx, FinalLog(log, Call(c, call).events))
  {
    hide CtxInv, FinalLog, Generate, Warp, Unregister, ResizeTo, DebugView, Registered;
    match call
    case RecordGenerate(given, appWait, outcome) => GenerateInv(c, given, appWait, outcome, log);
    case RecordWarp(given, appWait) => WarpInv(c, given, appWait, log);
    case UnregisterAll => UnregisterInv(c, log);
    case Resize(w, h) => ResizeInv(c, w, h, log);
    case SetDebugView(target) => DebugViewInv(c, target, log);
    case RegisterColor(given) => RegisteredInv(c, given, given || c.haveColor, c.haveOutput, c.hasMotion, log);
    case RegisterOutput(given) => RegisteredInv(c, given, c.haveColor, given || c.haveOutput, c.hasMotion, log);
    case RegisterAux(given, motion) =>
      RegisteredInv(c, given, c.haveColor, c.haveOutput, if given then motion else c.hasMotion, log);
  }

  lemma RegisteredInv(c: Ctx, given: bool, color: bool, output: bool, motion: bool, log: seq<Batch>)
    requires CtxInv(c, log)
    ensures var r := Registered(c, given, color, output, motion); CtxInv(r.ctx, FinalLog(log, r.events))
  {
    hide CtxInv;
    RegisterInv(c, Registered(c, given, color, output, motion).ctx, log);
  }

  lemma RegisterInv(c: Ctx, d: Ctx, log: seq<Batch>)
    requires CtxInv(c, log) && SameProtocol(c, d) && c.ready == d.ready
    ensures CtxInv(d, log) && FinalLog(log, []) == log
  {
  }

  lemma ResizeInv(c: Ctx, w: nat, h: nat, log: seq<Batch>)
    requires CtxInv(c, log)
    ensures var r := ResizeTo(c, w, h); CtxInv(r.ctx, FinalLog(log, r.events))
  {
    hide CtxInv;
    UnregisterInv(c, log);
    RegisterInv(Unregister(c).ctx, Unregister(c).ctx.(width := w, height := h), log);
  }

  lemma DebugViewInv(c: Ctx, target: bool, log: seq<Batch>)
    requires CtxInv(c, log)
    ensures var r := DebugView(c, target); CtxInv(r.ctx, FinalLog(log, r.events))
  {
    var r := DebugView(c, target);
    FinalLogQuiet(log, r.events);
    RegisterInv(c, r.ctx, log);
  }

  lemma FreshInv(c: Ctx)
    requires Fresh(c)
    ensures CtxInv(c, [])
  {
  }

  // ----- What the ring is for, and what a teardown forgets

  /** The submission at index i takes its command buffer from a pool reset earlier in the same call. */
  predicate ResetBefore(es: seq<Event>, i: nat)
    requires i < |es| && es[i].Submit?
  {
    exists j :: 0 <= j < i && es[j] == ResetPool(es[i].batch.pool)
  }

  lemma {:induction false} SubmitsAt(bs: seq<Batch>, k: nat)
    requires k < |bs|
    ensures Submits(bs)[k] == Submit(bs[k])
  {
    if k < |bs| - 1 {
      SubmitsAt(bs[..|bs| - 1], k);
    }
  }

  lemma {:induction false} FrameResets(head: seq<Event>, bs: seq<Batch>, i: nat)
    requires |head| <= i < |head| + |bs| && NoSubmits(head)
    requires bs[i - |head|].pass != Fusion ==> ResetPool(bs[i - |head|].pool) in head
    ensures var es := head + Submits(bs); es[i].Submit? && (es[i].batch.pass != Fusion ==> ResetBefore(es, i))
  {
    SubmitsAt(bs, i - |head|);
    if bs[i - |head|].pass != Fusion {
      var j :| 0 <= j < |head| && head[j] == ResetPool(bs[i - |head|].pool);
      assert (head + Submits(bs))[j] == head[j];
    }
  }

  /** Every command buffer a call submits comes from a pool that the call has reset before, so pools
      never hold more than one frame. */
  lemma PoolsResetBeforeUse(c: Ctx, call: ApiCall, i: nat)
    requires i < |Call(c, call).events| && Call(c, call).events[i].Submit?
    requires Call(c, call).events[i].batch.pass != Fusion
    ensures ResetBefore(Call(c, call).events, i)
  {
    match call
    case RecordGenerate(given, appWait, outcome) => GenerateResets(c, given, appWait, outcome, i);
    case RecordWarp(given, appWait) => WarpResets(c, given, appWait, i);
    case _ =>
  }

  lemma GenerateResets(c: Ctx, given: bool, appWait: bool, outcome: BuildOutcome, i: nat)
    requires var es := Generate(c, given, appWait, outcome).events;
      i < |es| && es[i].Submit? && es[i].batch.pass != Fusion
    ensures ResetBefore(Generate(c, given, appWait, outcome).events, i)
  {
    hide Submits, GenerateBatches;
    var b := Ensured(c, outcome).0;
    var bs := GenerateBatches(b, appWait);
    GenerateIsFrame(b, appWait);
    var es := Generate(c, given, appWait, outcome).events;
    var head := es[..|es| - |bs|];
    assert es == head + Submits(bs);
    assert head[|head| - 2] == ResetPool(Pool(b.build, ComputeQueue, SlotOf(b)));
    assert head[|head| - 1] == ResetPool(Pool(b.build, FlowQueue, SlotOf(b)));
    assert FrameAt(b, bs, i - |head|);
    FrameResets(head, bs, i);
  }

  lemma WarpResets(c: Ctx, given: bool, appWait: bool, i: nat)
    requires var es := Warp(c, given, appWait).events; i < |es| && es[i].Submit? && es[i].batch.pass != Fusion
    ensures ResetBefore(Warp(c, given, appWait).events, i)
  {
    hide Submits;
    var bs := WarpBatches(c, appWait);
    var es := Warp(c, given, appWait).events;
    var head := es[..|es| - |bs|];
    assert es == head + Submits(bs);
    assert head[|head| - 1] == ResetPool(Pool(c.build, ComputeQueue, SlotOf(c)));
    FrameResets(head, bs, i);
  }

  /** After an unregistration or a successful resize nothing is recorded until both images are
      registered again. */
  lemma TeardownForgetsImages(c: Ctx, call: ApiCall, appWait: bool, outcome: BuildOutcome)
    requires call.UnregisterAll? || (call.Resize? && Call(c, call).answer == Ok)
    ensures var d := Call(c, call).ctx;
      && !d.ready && Warp(d, true, appWait) == Reply(d, [], NotRegistered)
      && (d.automatic ==> Generate(d, true, appWait, outcome) == Reply(d, [], NotRegistered))
  {
  }
}
