/** The invariant of the whole system, kept by every step of the host, the application and the GPU. */
module PipelineProgress {
  import opened Pipeline
  import opened PipelineGpu
  import opened PipelineInvariant

  /** The counter is the number of signalled batches, which are a prefix of the log; whatever has
      begun was not held back by a wait. */
  ghost predicate GpuInv(s: Sys) {
    && |s.st| == |s.log| && s.counter <= |s.log|
    && (forall i :: 0 <= i < |s.log| ==> (s.st[i] == Signalled <==> i < s.counter))
    && (forall i :: 0 <= i < |s.log| && s.st[i] != Queued ==> Unblocked(s.log, s.counter, s.released, i))
  }

  /** Every batch that holds a command buffer of the pool is below c. */
  ghost predicate PoolIdle(log: seq<Batch>, pool: Pool, c: nat) {
    forall i :: 0 <= i < |log| && log[i].pool == pool ==> i < c
  }

  /** How far the counter is known to be once the event e has been issued. */
  function Reached(log: seq<Batch>, c: nat, e: Event): nat {
    match e
    case WaitTimeline(v) => Max(c, v)
    case WaitIdle => Max(c, |log|)
    case _ => c
  }

  /** What makes one event safe when the counter is at least c: a wait names a submitted value, a
      device-wide wait also covers the CUDA stream, a pool is reset or destroyed, and live descriptors
      are rewritten, only when no batch can still use them. */
  ghost predicate EventSafe(log: seq<Batch>, c: nat, e: Event) {
    match e
    case WaitTimeline(v) => v <= |log|
    case WaitIdle => EndsOnCompute(log)
    case ResetPool(pool) => PoolIdle(log, pool, c)
    case DestroyPools(_) => |log| <= c
    case RewriteDescriptors => |log| <= c
    case Submit(_) => true
  }

  function LogAfter(log: seq<Batch>, e: Event): seq<Batch> {
    if e.Submit? then log + [e.batch] else log
  }

  /** Issuing the events one after the other is safe, if the counter is at least c now. */
  ghost predicate Safe(log: seq<Batch>, c: nat, todo: seq<Event>)
    decreases |todo|
  {
    todo == [] || (EventSafe(log, c, todo[0]) && Safe(LogAfter(log, todo[0]), Reached(log, c, todo[0]), todo[1..]))
  }

  /** How far the counter is known to be when all events have been issued. */
  function Floor(log: seq<Batch>, c: nat, todo: seq<Event>): nat
    decreases |todo|
  {
    if todo == [] then c else Floor(LogAfter(log, todo[0]), Reached(log, c, todo[0]), todo[1..])
  }

  ghost predicate Inv(s: Sys) {
    && GpuInv(s)
    && CtxInv(s.ctx, FinalLog(s.log, s.todo))
    && Safe(s.log, s.counter, s.todo)
    && Floor(s.log, s.counter, s.todo) >= s.ctx.settled
  }

  // ----- A larger counter only makes things safer

  lemma {:induction false} SafeMonotone(log: seq<Batch>, c: nat, d: nat, todo: seq<Event>)
    requires Safe(log, c, todo) && c <= d
    ensures Safe(log, d, todo) && Floor(log, c, todo) <= Floor(log, d, todo)
    decreases |todo|
  {
    if todo != [] {
      SafeMonotone(LogAfter(log, todo[0]), Reached(log, c, todo[0]), Reached(log, d, todo[0]), todo[1..]);
    }
  }

  // ----- The events of a call are safe

  lemma {:induction false} SafeSubmits(log: seq<Batch>, c: nat, es: seq<Event>)
    requires forall i :: 0 <= i < |es| ==> es[i].Submit?
    ensures Safe(log, c, es) && Floor(log, c, es) == c
    decreases |es|
  {
    if es != [] {
      SafeSubmits(LogAfter(log, es[0]), c, es[1..]);
    }
  }

  lemma {:induction false} SubmitsSubmit(bs: seq<Batch>)
    ensures forall i :: 0 <= i < |Submits(bs)| ==> Submits(bs)[i].Submit?
  {
    if bs != [] {
      SubmitsSubmit(bs[..|bs| - 1]);
    }
  }

  /** Events that submit nothing, then events that only submit. */
  lemma {:induction false} SafeThen(log: seq<Batch>, c: nat, head: seq<Event>, tail: seq<Event>)
    requires NoSubmits(head) && Safe(log, c, head) && forall i :: 0 <= i < |tail| ==> tail[i].Submit?
    ensures Safe(log, c, head + tail) && Floor(log, c, head + tail) == Floor(log, c, head)
    decreases |head|
  {
    if head == [] {
      assert head + tail == tail;
      SafeSubmits(log, c, tail);
    } else {
      assert (head + tail)[1..] == head[1..] + tail;
      SafeThen(log, Reached(log, c, head[0]), head[1..], tail);
    }
  }

  lemma SafeCons(log: seq<Batch>, c: nat, e: Event, tail: seq<Event>)
    requires EventSafe(log, c, e) && Safe(LogAfter(log, e), Reached(log, c, e), tail)
    ensures Safe(log, c, [e] + tail) && Floor(log, c, [e] + tail) == Floor(LogAfter(log, e), Reached(log, c, e), tail)
  {
    assert ([e] + tail)[1..] == tail;
  }

  /** The ring wait followed by resets of pools of that slot. */
  lemma RingHeadSafe(c: Ctx, log: seq<Batch>, counter: nat, resets: seq<Event>)
    requires RingInv(c, log) && counter <= |log|
    requires forall d: nat :: d >= c.slotSignal[SlotOf(c)] ==> Safe(log, d, resets) && Floor(log, d, resets) == d
    ensures Safe(log, counter, RingWait(c.slotSignal[SlotOf(c)]) + resets)
    ensures Floor(log, counter, RingWait(c.slotSignal[SlotOf(c)]) + resets) == Max(counter, c.slotSignal[SlotOf(c)])
  {
    var v := c.slotSignal[SlotOf(c)];
    if v != 0 {
      SafeCons(log, counter, WaitTimeline(v), resets);
    } else {
      assert RingWait(v) + resets == resets;
    }
  }

  lemma ResetsSafe(c: Ctx, log: seq<Batch>, d: nat)
    requires RingInv(c, log) && d >= c.slotSignal[SlotOf(c)]
    ensures var one := [ResetPool(Pool(c.build, ComputeQueue, SlotOf(c)))];
      var two := [ResetPool(Pool(c.build, ComputeQueue, SlotOf(c))), ResetPool(Pool(c.build, FlowQueue, SlotOf(c)))];
      Safe(log, d, one) && Floor(log, d, one) == d && Safe(log, d, two) && Floor(log, d, two) == d
  {
    var compute := ResetPool(Pool(c.build, ComputeQueue, SlotOf(c)));
    var flow := ResetPool(Pool(c.build, FlowQueue, SlotOf(c)));
    SafeCons(log, d, compute, [flow]);
    assert [compute] + [flow] == [compute, flow];
  }

  /** A ring head, then submissions only. */
  lemma FrameSafe(c: Ctx, log: seq<Batch>, counter: nat, resets: seq<Event>, bs: seq<Batch>)
    requires RingInv(c, log) && counter <= |log| && NoSubmits(resets)
    requires forall d: nat :: d >= c.slotSignal[SlotOf(c)] ==> Safe(log, d, resets) && Floor(log, d, resets) == d
    ensures var es := RingWait(c.slotSignal[SlotOf(c)]) + resets + Submits(bs);
      Safe(log, counter, es) && Floor(log, counter, es) == Max(counter, c.slotSignal[SlotOf(c)])
  {
    var head := RingWait(c.slotSignal[SlotOf(c)]) + resets;
    RingHeadSafe(c, log, counter, resets);
    assert NoSubmits(head);
    SubmitsSubmit(bs);
    SafeThen(log, counter, head, Submits(bs));
  }

  lemma GenerateSafe(c: Ctx, given: bool, appWait: bool, outcome: BuildOutcome, log: seq<Batch>, counter: nat)
    requires CtxInv(c, log) && c.settled <= counter <= |log|
    ensures var r := Generate(c, given, appWait, outcome);
      Safe(log, counter, r.events) && Floor(log, counter, r.events) >= r.ctx.settled
  {
    EnsuredInv(c, outcome, log);
    var (b, answer) := Ensured(c, outcome);
    if given && c.automatic && answer == Ok {
      var resets := [ResetPool(Pool(b.build, ComputeQueue, SlotOf(b))), ResetPool(Pool(b.build, FlowQueue, SlotOf(b)))];
      forall d: nat | d >= b.slotSignal[SlotOf(b)] ensures Safe(log, d, resets) && Floor(log, d, resets) == d {
        ResetsSafe(b, log, d);
      }
      FrameSafe(b, log, counter, resets, GenerateBatches(b, appWait));
    }
  }

  lemma WarpSafe(c: Ctx, given: bool, appWait: bool, log: seq<Batch>, counter: nat)
    requires CtxInv(c, log) && c.settled <= counter <= |log|
    ensures var r := Warp(c, given, appWait);
      Safe(log, counter, r.events) && Floor(log, counter, r.events) >= r.ctx.settled
  {
    if Warp(c, given, appWait).answer.Synced? {
      var resets := [ResetPool(Pool(c.build, ComputeQueue, SlotOf(c)))];
      forall d: nat | d >= c.slotSignal[SlotOf(c)] ensures Safe(log, d, resets) && Floor(log, d, resets) == d {
        ResetsSafe(c, log, d);
      }
      FrameSafe(c, log, counter, resets, WarpBatches(c, appWait));
    }
  }

  /** After a device-wide wait everything is complete, so anything may go. */
  lemma IdleThenSafe(log: seq<Batch>, counter: nat, e: Event)
    requires EndsOnCompute(log) && counter <= |log| && EventSafe(log, |log|, e) && !e.WaitTimeline?
    ensures Safe(log, counter, [WaitIdle, e]) && Floor(log, counter, [WaitIdle, e]) == |log|
  {
    SafeCons(log, counter, WaitIdle, [e]);
    assert [WaitIdle] + [e] == [WaitIdle, e];
  }

  lemma UnregisterSafe(c: Ctx, log: seq<Batch>, counter: nat)
    requires CtxInv(c, log) && c.settled <= counter <= |log|
    ensures var r := Unregister(c);
      Safe(log, counter, r.events) && Floor(log, counter, r.events) >= r.ctx.settled
  {
    if c.ready {
      IdleThenSafe(log, counter, DestroyPools(c.build));
    }
  }

  lemma DebugViewSafe(c: Ctx, target: bool, log: seq<Batch>, counter: nat)
    requires CtxInv(c, log) && c.settled <= counter <= |log|
    ensures var r := DebugView(c, target);
      Safe(log, counter, r.events) && Floor(log, counter, r.events) >= r.ctx.settled
  {
    if c.ready && target {
      IdleThenSafe(log, counter, RewriteDescriptors);
    }
  }

  lemma ResizeSafe(c: Ctx, w: nat, h: nat, log: seq<Batch>, counter: nat)
    requires CtxInv(c, log) && c.settled <= counter <= |log|
    ensures var r := ResizeTo(c, w, h);
      Safe(log, counter, r.events) && Floor(log, counter, r.events) >= r.ctx.settled
  {
    hide CtxInv;
    UnregisterSafe(c, log, counter);
  }

  lemma CallSafe(c: Ctx, call: ApiCall, log: seq<Batch>, counter: nat)
    requires CtxInv(c, log) && c.settled <= counter <= |log|
    ensures var r := Call(c, call);
      Safe(log, counter, r.events) && Floor(log, counter, r.events) >= r.ctx.settled
  {
    hide CtxInv, Generate, Warp, Unregister, ResizeTo, DebugView;
    match call
    case RecordGenerate(given, appWait, outcome) => GenerateSafe(c, given, appWait, outcome, log, counter);
    case RecordWarp(given, appWait) => WarpSafe(c, given, appWait, log, counter);
    case UnregisterAll => UnregisterSafe(c, log, counter);
    case Resize(w, h) => ResizeSafe(c, w, h, log, counter);
    case SetDebugView(target) => DebugViewSafe(c, target, log, counter);
    case _ =>
  }

  // ----- The GPU's steps

  /** What holds of the whole log holds of what has been submitted. */
  lemma {:induction false} ChainedSoFar(log: seq<Batch>, todo: seq<Event>)
    requires Chained(FinalLog(log, todo))
    ensures Chained(log)
  {
    var all := FinalLog(log, todo);
    forall i | 0 <= i < |log| ensures ChainedAt(log, i) {
      assert ChainedAt(all, i);
      assert all[..|log|][i] == all[i];
      if i > 0 {
        assert all[..|log|][i - 1] == all[i - 1];
      }
    }
  }

  /** The batch whose signal executes is the first one not yet signalled. */
  lemma SignalIsNext(s: Sys, i: nat)
    requires GpuInv(s) && Chained(s.log) && Enabled(s, Signal(i))
    ensures i == s.counter
  {
    assert ChainedAt(s.log, i);
    if i > 0 {
      if SameQueue(s.log, i - 1, i) {
        assert s.st[i - 1] == Signalled;
      } else {
        assert Unblocked(s.log, s.counter, s.released, i);
        assert SameQueue(s.log, i, i) && WaitMet(s.log[i], i, s.counter, s.released);
      }
    }
  }

  lemma SignalInv(s: Sys, i: nat)
    requires GpuInv(s) && Chained(s.log) && Enabled(s, Signal(i))
    ensures GpuInv(Apply(s, Signal(i))) && Apply(s, Signal(i)).counter == s.counter + 1
  {
    SignalIsNext(s, i);
    assert ChainedAt(s.log, i);
    var t := Apply(s, Signal(i));
    forall k | 0 <= k < |t.log| && t.st[k] != Queued ensures Unblocked(t.log, t.counter, t.released, k) {
    }
  }

  lemma ReleaseInv(s: Sys, i: nat)
    requires GpuInv(s) && Enabled(s, Release(i))
    ensures GpuInv(Apply(s, Release(i)))
  {
    var t := Apply(s, Release(i));
    forall k | 0 <= k < |t.log| && t.st[k] != Queued ensures Unblocked(t.log, t.counter, t.released, k) {
    }
  }

  /** A device-wide wait that has returned means that everything is complete, on the CUDA stream too:
      the last batch is on the compute queue, and signals execute in order. */
  lemma IdleMeansDone(s: Sys)
    requires GpuInv(s) && EndsOnCompute(s.log) && DeviceIdle(s)
    ensures s.counter == |s.log|
  {
    if s.log != [] {
      assert s.st[|s.log| - 1] == Signalled;
    }
  }

  lemma HostInv(s: Sys)
    requires Inv(s) && HostCanGo(s)
    ensures Inv(HostStep(s))
  {
  }

  lemma ApiInv(s: Sys, call: ApiCall)
    requires Inv(s) && s.todo == []
    ensures Inv(Apply(s, Api(call)))
  {
    CallInv(s.ctx, call, s.log);
    CallSafe(s.ctx, call, s.log, s.counter);
  }

  /** Every step of any agent keeps the invariant. */
  lemma StepInv(s: Sys, step: Step)
    requires Inv(s) && Enabled(s, step)
    ensures Inv(Apply(s, step))
  {
    var t := Apply(s, step);
    match step
    case Api(call) => ApiInv(s, call);
    case Host => HostInv(s);
    case Release(i) => ReleaseInv(s, i);
    case Signal(i) =>
      ChainedSoFar(s.log, s.todo);
      SignalInv(s, i);
      SafeMonotone(s.log, s.counter, t.counter, s.todo);
    case Start(i) =>
    case Finish(i) =>
  }

  lemma InitialInv(s: Sys)
    requires Initial(s)
    ensures Inv(s)
  {
    FreshInv(s.ctx);
  }

  /** The invariant holds at the end of every run. */
  lemma {:induction false} RunInv(s: Sys, steps: seq<Step>, t: Sys)
    requires Inv(s) && Runs(s, steps, t)
    ensures Inv(t)
    decreases |steps|
  {
    if steps != [] {
      StepInv(s, steps[0]);
      RunInv(Apply(s, steps[0]), steps[1..], t);
    }
  }
}
