/** The frame pipeline's host side: what each API call does to the context, and which Vulkan and
    CUDA calls it issues, in order. */
module Pipeline {

  const K_RING: nat := 2

  /** One entry per ring slot. */
  type Ring = s: seq<nat> | |s| == K_RING witness [0, 0]

  const U32: nat := 0x1_0000_0000

  /** The command buffers the pipeline submits; with CUDA interop, also the fusion kernels. */
  datatype Pass = Prep | OpticalFlow | RefineWarp | FlowWarp | WarpOnly | Fusion | ResidualAdd

  datatype Queue = ComputeQueue | FlowQueue | CudaStream

  function QueueOf(p: Pass): Queue {
    match p
    case OpticalFlow => FlowQueue
    case Fusion => CudaStream
    case _ => ComputeQueue
  }

  /** What a batch waits for: nothing, a semaphore of the application, or the shared timeline. */
  datatype Wait = NoWait | AppWait | Timeline(value: nat)

  /** A command pool of the ring, named by the pipeline build it belongs to. */
  datatype Pool = Pool(build: nat, queue: Queue, slot: nat)

  /** One submission: it runs `pass` on its queue after `wait`, then signals the shared timeline.
      `pool` is where its command buffer comes from, `frame` numbers the recording calls. `pack` says
      that it also packs the fusion input, `hint` that it encodes the motion hint, or is given it. */
  datatype Batch = Batch(pass: Pass, wait: Wait, signal: nat, pool: Pool, frame: nat, pack: bool, hint: bool)

  datatype Event =
    | WaitTimeline(value: nat)      // vkWaitSemaphores
    | WaitIdle                      // vkDeviceWaitIdle
    | ResetPool(pool: Pool)         // vkResetCommandPool
    | DestroyPools(build: nat)      // destroyPipeline
    | RewriteDescriptors            // refreshDescriptors on a live pipeline
    | Submit(batch: Batch)          // vkQueueSubmit, or the CUDA dispatch

  /** The context fields the protocol depends on. `build`, `frames` and `settled` are bookkeeping of
      the model: pipeline builds torn down so far, recording calls so far, and how many batches the
      host has waited for. */
  datatype Ctx = Ctx(
    automatic: bool, shaderFlow: bool, interpolatorCnn: bool, wantHint: bool, maxWidth: nat, maxHeight: nat,
    width: nat, height: nat,
    haveColor: bool, haveOutput: bool, hasMotion: bool, haveDebugTarget: bool,
    ready: bool, useHint: bool, interop: bool,
    timelineValue: nat, slotSignal: Ring, frameIndex: nat,
    build: nat, frames: nat, settled: nat)

  datatype Answer = Ok | Synced(value: nat) | InvalidArgument | NotRegistered | OutOfMemory | Internal

  /** What building the pipeline meets in its environment. `Built` says whether the CUDA import came
      about (a model is loaded and every step of it succeeds). */
  datatype BuildOutcome = Built(interop: bool) | AllocationFails | ObjectCreationFails

  datatype ApiCall =
    | RegisterColor(given: bool)
    | RegisterAux(given: bool, motion: bool)
    | RegisterOutput(given: bool)
    | SetDebugView(target: bool)
    | UnregisterAll
    | Resize(width: nat, height: nat)
    | RecordGenerate(given: bool, appWait: bool, outcome: BuildOutcome)
    | RecordWarp(given: bool, appWait: bool)

  /** The context after a call, what it issued, and what it answered. */
  datatype Reply = Reply(ctx: Ctx, events: seq<Event>, answer: Answer)

  function SlotOf(c: Ctx): nat { c.frameIndex % K_RING }

  function AppOrNone(appWait: bool): Wait {
    if appWait then AppWait else NoWait
  }

  /** The pack pass rides on a warp only with the learned interpolator selected. */
  function Packs(c: Ctx): bool {
    c.interpolatorCnn && c.interop
  }

  function BatchOf(c: Ctx, pass: Pass, wait: Wait, signal: nat): Batch {
    Batch(pass, wait, signal, Pool(c.build, QueueOf(pass), SlotOf(c)), c.frames,
          Packs(c) && (pass == RefineWarp || pass == FlowWarp || pass == WarpOnly),
          c.useHint && (pass == Prep || pass == OpticalFlow))
  }

  /** cnnDispatchResidual: two more stages, whenever the interop handle exists. */
  function Residual(c: Ctx, warpVal: nat): seq<Batch> {
    if c.interop
    then [BatchOf(c, Fusion, Timeline(warpVal), warpVal + 1),
          BatchOf(c, ResidualAdd, Timeline(warpVal + 1), warpVal + 2)]
    else []
  }

  /** The batches of one generate call. */
  function GenerateBatches(c: Ctx, appWait: bool): seq<Batch> {
    var v := c.timelineValue;
    if c.shaderFlow then
      [BatchOf(c, FlowWarp, AppOrNone(appWait), v + 1)] + Residual(c, v + 1)
    else
      [BatchOf(c, Prep, AppOrNone(appWait), v + 1),
       BatchOf(c, OpticalFlow, Timeline(v + 1), v + 2),
       BatchOf(c, RefineWarp, Timeline(v + 2), v + 3)] + Residual(c, v + 3)
  }

  function WarpBatches(c: Ctx, appWait: bool): seq<Batch> {
    [BatchOf(c, WarpOnly, AppOrNone(appWait), c.timelineValue + 1)] + Residual(c, c.timelineValue + 1)
  }

  function Submits(bs: seq<Batch>): (es: seq<Event>)
    ensures |es| == |bs|
  {
    if bs == [] then [] else Submits(bs[..|bs| - 1]) + [Submit(bs[|bs| - 1])]
  }

  /** The host wait of a ring slot: skipped while the slot has never signalled. */
  function RingWait(signal: nat): seq<Event> {
    if signal != 0 then [WaitTimeline(signal)] else []
  }

  function Max(a: nat, b: nat): nat { if a < b then b else a }

  /** The context after n batches have been recorded in the current slot. */
  function Advanced(c: Ctx, n: nat): Ctx
  {
    c.(slotSignal := c.slotSignal[SlotOf(c) := c.timelineValue + n],
       frameIndex := (c.frameIndex + 1) % U32,
       timelineValue := c.timelineValue + n,
       frames := c.frames + 1,
       settled := Max(c.settled, c.slotSignal[SlotOf(c)]))
  }

  /** ensurePipeline. */
  function Ensured(c: Ctx, outcome: BuildOutcome): (Ctx, Answer) {
    if c.ready then (c, Ok)
    else if !c.haveColor || !c.haveOutput then (c, NotRegistered)
    else
      var hint := !c.shaderFlow && c.wantHint && c.hasMotion;
      match outcome
      case AllocationFails => (c.(useHint := hint), OutOfMemory)
      case ObjectCreationFails => (c.(useHint := hint), Internal)
      case Built(interop) => (c.(useHint := hint, ready := true, interop := interop), Ok)
  }

  function Generate(c: Ctx, given: bool, appWait: bool, outcome: BuildOutcome): Reply
  {
    if !given || !c.automatic then Reply(c, [], InvalidArgument)
    else
      var (b, answer) := Ensured(c, outcome);
      if answer != Ok then Reply(b, [], answer)
      else
        var bs := GenerateBatches(b, appWait);
        var slot := SlotOf(b);
        var head := RingWait(b.slotSignal[slot]) +
          [ResetPool(Pool(b.build, ComputeQueue, slot)), ResetPool(Pool(b.build, FlowQueue, slot))];
        Reply(Advanced(b, |bs|), head + Submits(bs), Synced(b.timelineValue + |bs|))
  }

  function Warp(c: Ctx, given: bool, appWait: bool): Reply
  {
    if !given then Reply(c, [], InvalidArgument)
    else if !c.ready || !c.haveColor || !c.haveOutput then Reply(c, [], NotRegistered)
    else
      var bs := WarpBatches(c, appWait);
      var head := RingWait(c.slotSignal[SlotOf(c)]) + [ResetPool(Pool(c.build, ComputeQueue, SlotOf(c)))];
      Reply(Advanced(c, |bs|), head + Submits(bs), Synced(c.timelineValue + |bs|))
  }

  /** destroyPipeline: the ring, its slot signals and the interop are gone. */
  function TornDown(c: Ctx): Ctx {
    c.(slotSignal := [0, 0], frameIndex := 0, interop := false, ready := false,
       build := c.build + 1, settled := c.timelineValue)
  }

  function Unregister(c: Ctx): Reply {
    var d := if c.ready then TornDown(c) else c;
    Reply(d.(haveColor := false, haveOutput := false, hasMotion := false, haveDebugTarget := false),
          if c.ready then [WaitIdle, DestroyPools(c.build)] else [], Ok)
  }

  function ResizeTo(c: Ctx, width: nat, height: nat): Reply {
    if width == 0 || height == 0 || width > c.maxWidth || height > c.maxHeight then Reply(c, [], InvalidArgument)
    else
      var u := Unregister(c);
      u.(ctx := u.ctx.(width := width, height := height))
  }

  function DebugView(c: Ctx, target: bool): Reply {
    Reply(c.(haveDebugTarget := target), if c.ready && target then [WaitIdle, RewriteDescriptors] else [], Ok)
  }

  /** The registration calls: images may come and go on a live pipeline, which keeps running. */
  function Registered(c: Ctx, given: bool, color: bool, output: bool, motion: bool): Reply {
    Reply(c.(haveColor := color, haveOutput := output, hasMotion := motion), [], if given then Ok else InvalidArgument)
  }

  /** Every API call on a context. */
  function Call(c: Ctx, call: ApiCall): Reply
  {
    match call
    case RegisterColor(given) => Registered(c, given, given || c.haveColor, c.haveOutput, c.hasMotion)
    case RegisterOutput(given) => Registered(c, given, c.haveColor, given || c.haveOutput, c.hasMotion)
    case RegisterAux(given, motion) =>
      Registered(c, given, c.haveColor, c.haveOutput, if given then motion else c.hasMotion)
    case SetDebugView(target) => DebugView(c, target)
    case UnregisterAll => Unregister(c)
    case Resize(w, h) => ResizeTo(c, w, h)
    case RecordGenerate(given, appWait, outcome) => Generate(c, given, appWait, outcome)
    case RecordWarp(given, appWait) => Warp(c, given, appWait)
  }

  /** A context as it is created. */
  predicate Fresh(c: Ctx) {
    && !c.haveColor && !c.haveOutput && !c.hasMotion && !c.haveDebugTarget
    && !c.ready && !c.useHint && !c.interop
    && c.timelineValue == 0 && c.slotSignal == [0, 0] && c.frameIndex == 0
    && c.build == 0 && c.frames == 0 && c.settled == 0
  }
}
