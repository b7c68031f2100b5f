# Verified model of nvofg's protocol, code generators and numeric cores

`nvofg` is a frame-generation library for Vulkan: it computes optical flow between two rendered frames, warps
an intermediate frame, optionally refines it with a small neural net, and paces presentation. Around the library
stand a backend resolver (RenderFX) and an experimental native host that loads Windows code and calls it through
generated call thunks. This project models the parts of that code where a mistake is hard to see, and proves what
they are for.

| file | models |
|---|---|
| `Bytes`, `Grid` | little-endian integers and octets; row-major indices and clamped coordinates |
| `Machine`, `Codec` | the x86-64 subset the thunks use: registers, stack cells, instructions; encoders and an independent decoder |
| `CallAbi`, `StubCode`, `StubRun`, `StubCorrectness`, `StubEmitter`, `AbiLaws` | the typed thunk compiler: argument classification, the code it should emit, its execution, its correctness, the emitter that writes it octet by octet, and what it achieves between a caller and a callee |
| `CommonThunk` | the hand-written integer thunk and the trampolines in front of it |
| `Pipeline`, `PipelineContext` | the frame pipeline's host calls, as a function of the context and as the object that updates its fields |
| `PipelineGpu`, `PipelineInvariant`, `PipelineProgress`, `PipelineSafety`, `PipelineDataflow`, `PipelineCalls` | the whole system of host, application, Vulkan queues and CUDA stream as a transition system; what holds in every run, and what a call owes its application |
| `Resolver`, `ResolverSearch` | the cross-stage backend resolver, as a function and as the loops it runs |
| `ResolverOptimal`, `ResolverIntent`, `ResolverMaximal`, `ResolverDebug`, `ResolverSpec` | what its answer means, in the end in terms of preference and table fields alone, how it moves when the intent is narrowed, when it leaves a stage out, and what debug mode does |
| `WeightFile` | the `.nvfgw` writer and its two readers |
| `Relocation`, `RelocationTable` | the PE base-relocation walk, and tables as a linker writes them |
| `Pacer` | the present pacer |
| `Splat`, `SplatLaws` | forward and softmax splatting, and where it puts the mass |
| `FusionOps`, `ConvLaws`, `FusionNet` | the CPU reference of the fusion net, and the laws that determine its convolution |

**Call thunks.** The machine has sixteen general and sixteen vector registers, memory in eight-octet cells, and
arithmetic modulo 2^64. An emitted stub is judged by decoding its octets with a decoder written from the
instruction format, running them, and comparing what a System V callee reads (System V AMD64 psABI, sections 3.2.2
and 3.2.3) with what a Microsoft x64 caller passed. For every signature of up to twelve scalar arguments and every
entry state the stub reaches its call, aligned, and delivers an argument from every entry state if and only if it
is an INTEGER argument, an argument System V passes in memory, or an SSE argument at position 0 to 3. The header
of `ms_thunk_typed.c` announces arguments 5 and later without that restriction; the code never fetches an SSE
argument at position 4 or later from its stack slot (line 106 only copies between vector registers, and from
position 8 on cannot even name the source). The stub returns with RSP restored and the callee's results untouched.
A Microsoft caller expects RBX, RBP, RDI, RSI, R12 to R15 and XMM6 to XMM15 back; of the general registers other
than RSP, those that survive every callee that keeps its System V obligations are exactly RBX, RBP and R12 to R15,
and no vector register does. `ms2sysv_common` keeps RDI and RSI in addition, but no vector register either. It
delivers an argument exactly when all arguments before it are of its class and it is among the first six (INTEGER)
or four (SSE); its comment promises pointer signatures in general. `Machine.WrapIsMod` shows that the machine's
wrapping is reduction modulo 2^64.

**Resolver.** The answer is the first maximum of an exhaustive search, so its properties are those of a maximum;
`ResolverSpec` says which one, without any of the code's own helpers.
Three things the code and its comments suggest hold only under a condition, which is proved exact: the candidate
array is overrun precisely by a full table every entry of which is admitted for one automatic stage; an automatic
stage without family constraints is left out precisely if nothing admitted for it scores above zero, which a cost of
200 can bring about although a comment says that any valid backend beats a disabled stage; and debug mode filters
like the deterministic setting but also moves scores, so that it raises the best score of some preference precisely
if the table offers a supported combination with a vendor-neutral backend.

**Frame pipeline.** A call is a list of driver calls: a host wait, pool resets, submissions. The transition system
interleaves one host thread with an application that releases its own semaphores whenever it likes, and with
queues that execute batches in any order the rules on semaphore signaling and waiting allow (Vulkan 1.3, sections
7.4.1 and 7.4.2: a signal covers everything earlier in submission order on its queue, a wait holds back everything
later). The CUDA stream follows the contract of `cnn_interop.hpp` and is given no more ordering than a queue.
Submissions are taken to succeed, as the code does. `Reachable` states are those some run leads to from a fresh
context, through any sequence of API calls.

**Numbers.** Image and network arithmetic is over the reals; the exponential and the sigmoid are parameters.
Machine integers are unbounded except where their width matters: 64-bit registers and addresses, `uint32_t` frame
index and file fields, signed casts, the 64-bit element count of the weight loader, relocation deltas, and the
initial best score of the resolver.

## Model

| member | source | states |
|---|---|---|
| Bytes.LoadOfStore | training/export.py:31-38 | a little-endian store of n octets loads back as the value modulo 256^n |
| Bytes.StoreOfLoad | src/cnn_model.cpp:7 | what was loaded stores back to the same octets |
| Codec.DecodeEncode | experiments/dlssg-native/ms_thunk_typed.c:39-67 | the decoder inverts every encoder over the operands it is faithful for, whatever follows |
| Codec.MovXmmTruncates | experiments/dlssg-native/ms_thunk_typed.c:51-53 | the vector move keeps only three bits of each register: it decodes to itself exactly when both are below 8 |
| Codec.ModRmFieldsAdd | experiments/dlssg-native/ms_thunk_typed.c:41-52 | the or-ed ModRM bit fields do not overlap, so they are sums |
| Codec.DecodeEncodeAll | experiments/dlssg-native/ms_thunk_typed.c:39-67 | decoding a whole emitted program gives it back, up to that truncation |
| CallAbi.IntPosAt | experiments/dlssg-native/ms_thunk_typed.c:82-86 | entry r of the INTEGER position list is the argument of INTEGER rank r |
| CallAbi.IntPosOf | experiments/dlssg-native/ms_thunk_typed.c:82-86 | every INTEGER argument is in that list at its rank |
| CallAbi.SsePosAt | experiments/dlssg-native/ms_thunk_typed.c:82-86 | entry r of the SSE position list is the argument of SSE rank r |
| CallAbi.SsePosOf | experiments/dlssg-native/ms_thunk_typed.c:82-86 | every SSE argument is in that list at its rank |
| CallAbi.MemPosAt | experiments/dlssg-native/ms_thunk_typed.c:107-114 | entry r of the overflow list is the memory argument of rank r, and sits at position 6 or later |
| CallAbi.MemPosOf | experiments/dlssg-native/ms_thunk_typed.c:107-114 | every memory argument is in that list at its rank |
| StubCode.StubSize | experiments/dlssg-native/ms_thunk_typed.c:72-135 | a stub takes at most 30 + 5 nargs octets, so the 256-octet limit never triggers |
| StubCode.StubFits | experiments/dlssg-native/ms_thunk_typed.c:87-125 | every instruction is encodable with its displacement in the one-octet form |
| StubCode.StubDecodes | experiments/dlssg-native/ms_thunk_typed.c:72-127 | the emitted octets decode to the intended instruction list, vector registers modulo 8 |
| StubRun.GprRun | experiments/dlssg-native/ms_thunk_typed.c:87-102 | the integer shuffle fetches each of the first six INTEGER arguments into its register; no source is overwritten before it is read |
| StubRun.XmmRun | experiments/dlssg-native/ms_thunk_typed.c:103-106 | the vector moves put each nameable SSE source into its rank's register and invent no value |
| StubRun.PushRun | experiments/dlssg-native/ms_thunk_typed.c:115-120 | pad and pushes build the argument area from the caller's slots, although RSP moves under the displacements |
| StubCorrectness.ReachesCall | experiments/dlssg-native/ms_thunk_typed.c:72-123 | from every entry state the octets run to the call of the target with registers and argument area filled |
| StubCorrectness.ArgumentDelivered | experiments/dlssg-native/ms_thunk_typed.c:72-123 | every covered argument reaches a System V callee with the value the caller passed |
| StubCorrectness.UncoveredIsLost | experiments/dlssg-native/ms_thunk_typed.c:103-106 | an SSE argument at position 4 or later of SSE rank below 8 is not fetched from its stack slot |
| StubCorrectness.DeliveredIffCovered | experiments/dlssg-native/ms_thunk_typed.c:72-123 | the stub delivers an argument from every entry state if and only if it is covered |
| StubCorrectness.DecodesAsIntended | experiments/dlssg-native/ms_thunk_typed.c:103-106 | the octets decode to exactly the intended list iff no SSE argument to be moved sits at position 8 or later |
| StubCorrectness.CallIsAligned | experiments/dlssg-native/ms_thunk_typed.c:107-123 | RSP is 0 modulo 16 at the call for every signature |
| StubCorrectness.StubReturns | experiments/dlssg-native/ms_thunk_typed.c:121-126 | after the callee returns, the stub returns to its caller with RSP restored and everything else as the callee left it |
| StubCorrectness.LosesTheRest | experiments/dlssg-native/ms_thunk_typed.c:87-126 | a callee that keeps every System V obligation can leave all other general registers, RDI and RSI among them, and all vector registers changed at once |
| StubCorrectness.RegisterSurvivesIff | experiments/dlssg-native/ms_thunk_typed.c:87-126 | a general register other than RSP survives every such callee if and only if it is RBX, RBP or one of R12 to R15 |
| AbiLaws.CallerSide | experiments/dlssg-native/ms_thunk_typed.c:69-71 | what the stub takes for argument i is what a Microsoft caller left before the call: a register by position, or the i-th eightbyte from its stack pointer |
| AbiLaws.CalleeSide | experiments/dlssg-native/ms_thunk_typed.c:82-114 | what the stub takes for the received argument is where a System V function looks, by counting earlier arguments of each kind |
| AbiLaws.StackArgumentArrives | experiments/dlssg-native/ms_thunk_typed.c:95-120 | a stack argument that arrives is the eightbyte at 8 + 8 i above the entry stack pointer |
| AbiLaws.PassedIff | experiments/dlssg-native/ms_thunk_typed.c:72-127 | from caller to callee, an argument is read as the caller has it, from every caller state, iff it is INTEGER, among the first four, or a vector argument with eight others before it |
| StubEmitter.CodeCursor.Emit | experiments/dlssg-native/ms_thunk_typed.c:39-67 | writing an instruction through the bumped pointer appends exactly its encoding and touches nothing else |
| StubEmitter.CodeCursor.EMovReg | experiments/dlssg-native/ms_thunk_typed.c:39-42 | appends the register move |
| StubEmitter.CodeCursor.ELoadRsp | experiments/dlssg-native/ms_thunk_typed.c:43-50 | appends the load from the stack, with the short displacement below 128 |
| StubEmitter.CodeCursor.EMovXmm | experiments/dlssg-native/ms_thunk_typed.c:51-53 | appends the vector move |
| StubEmitter.CodeCursor.EPushRsp | experiments/dlssg-native/ms_thunk_typed.c:54-59 | appends the push of a stack cell, with the short displacement below 128 |
| StubEmitter.CodeCursor.EMovabs | experiments/dlssg-native/ms_thunk_typed.c:64-65 | appends the load of a 64-bit constant |
| StubEmitter.EmitGprShuffle | experiments/dlssg-native/ms_thunk_typed.c:87-102 | emits the saves and one fetch for each of the first six INTEGER arguments |
| StubEmitter.EmitXmmShuffle | experiments/dlssg-native/ms_thunk_typed.c:103-106 | emits a vector move for each of the first eight SSE arguments not in place |
| StubEmitter.EmitOverflow | experiments/dlssg-native/ms_thunk_typed.c:115-120 | emits the pad and the pushes, last argument first |
| StubEmitter.EmitCall | experiments/dlssg-native/ms_thunk_typed.c:121-125 | emits the call through RAX, the cleanup and the return |
| StubEmitter.ScanKinds | experiments/dlssg-native/ms_thunk_typed.c:82-86 | the kind scan fills the two position lists |
| StubEmitter.ScanOverflow | experiments/dlssg-native/ms_thunk_typed.c:107-114 | the overflow scan fills the memory position list |
| StubEmitter.EmitStub | experiments/dlssg-native/ms_thunk_typed.c:79-126 | the four emission phases append the stub of the signature |
| StubEmitter.EmitMs2SysvTyped | experiments/dlssg-native/ms_thunk_typed.c:72-127 | into any buffer the stub fits in: writes its octets in place and returns their number, or refuses a bad request, writes nothing and returns 0 |
| StubEmitter.TypedArena.Make | experiments/dlssg-native/ms_thunk_typed.c:144-152 | as long as the next stub fits, hands out consecutive stubs; all stubs handed out before keep their octets |
| CommonThunk.ReachesCall | experiments/dlssg-native/s5_host.c:50-60 | the common thunk calls the target in R10 with the System V registers filled, RDI and RSI saved in its frame, and RBX, RBP and R12 to R15 untouched |
| CommonThunk.CallIsAligned | experiments/dlssg-native/s5_host.c:59-60 | RSP is 0 modulo 16 at its call |
| CommonThunk.SixIntegersArrive | experiments/dlssg-native/s5_host.c:50-60 | all arguments of an all-INTEGER signature of up to six arrive |
| CommonThunk.DeliveredIffCovered | experiments/dlssg-native/s5_host.c:40-63 | an argument of any signature arrives from every entry state iff all before it are of its class and it is among the first six (INTEGER) or four (SSE) |
| CommonThunk.CommonReturns | experiments/dlssg-native/s5_host.c:60-63 | returns with RSP, RDI and RSI as on entry and everything else as the callee left it |
| CommonThunk.RegisterSurvivesIff | experiments/dlssg-native/s5_host.c:50-63 | a general register other than RSP survives every conforming callee if and only if it is RBX, RBP, RDI, RSI or one of R12 to R15 |
| CommonThunk.NoVectorSurvives | experiments/dlssg-native/s5_host.c:50-63 | no vector register survives every conforming callee, XMM6 to XMM15 included |
| CommonThunk.TrampolineDecodes | experiments/dlssg-native/s5_host.c:1025-1029 | a trampoline's 22 octets decode to its three instructions |
| CommonThunk.TrampolineOctets | experiments/dlssg-native/s5_host.c:1025-1029 | the 22 octets themselves, with target and common code at their places |
| CommonThunk.TrampolineDelivers | experiments/dlssg-native/s5_host.c:1025-1029 | a call through a trampoline reaches its target, aligned, with each covered argument in place |
| CommonThunk.HostCode.MakeMs2Sysv | experiments/dlssg-native/s5_host.c:1025-1029 | appends a trampoline to the code region and changes nothing else; refuses a null target |
| PipelineContext.NvofgContext.RegisterColor | src/pipeline.cpp:777-784 | the registration updates its flag only, on a live pipeline too |
| PipelineContext.NvofgContext.RegisterAux | src/pipeline.cpp:786-798 | the registration updates its flag only |
| PipelineContext.NvofgContext.RegisterOutput | src/pipeline.cpp:800-806 | the registration updates its flag only |
| PipelineContext.NvofgContext.SetDebugView | src/context.cpp:239-256 | descriptors of a live pipeline are rewritten after a device-wide wait |
| PipelineContext.NvofgContext.EnsurePipeline | src/pipeline.cpp:188-459 | builds once both registrations are there; a failure leaves the pipeline not ready |
| PipelineContext.NvofgContext.DestroyPipeline | src/pipeline.cpp:525-581 | clears slot signals, frame index, interop and readiness, and keeps the timeline value |
| PipelineContext.NvofgContext.UnregisterAll | src/pipeline.cpp:808-815 | waits for the device before tearing a live pipeline down, then clears the registrations |
| PipelineContext.NvofgContext.Resize | src/pipeline.cpp:817-828 | rejects empty and oversized extents, else tears down and takes the new extent |
| PipelineContext.NvofgContext.CnnDispatchResidual | src/pipeline.cpp:748-767 | with interop, two more chained stages whose last value is returned; else nothing |
| PipelineContext.NvofgContext.RecordGenerate | src/pipeline.cpp:832-1076 | new state, issued driver calls and answer are those of the generate call on either tier |
| PipelineContext.NvofgContext.RecordWarp | src/pipeline.cpp:1080-1127 | new state, issued driver calls and answer are those of the warp call |
| PipelineInvariant.GenerateIsFrame | src/pipeline.cpp:860-937 | a generate call's batches are chained through the timeline, first and last on the compute queue |
| PipelineInvariant.WarpIsFrame | src/pipeline.cpp:1099-1123 | so are a warp call's |
| PipelineInvariant.CallInv | src/pipeline.cpp:777-1127 | every API call keeps the relation between context and all submitted batches |
| PipelineInvariant.PoolsResetBeforeUse | src/pipeline.cpp:858-1101 | every command buffer a call submits comes from a pool reset earlier in that call |
| PipelineInvariant.TeardownForgetsImages | src/pipeline.cpp:808-828 | after an unregistration or resize nothing is recorded until both images are registered again |
| PipelineProgress.SignalIsNext | src/pipeline.cpp:713-738 | the only signal that can execute is that of the first batch not yet signalled |
| PipelineProgress.IdleMeansDone | src/pipeline.cpp:808-815 | after a device-wide wait everything is complete, work on the CUDA stream too, although that wait does not ask it |
| PipelineProgress.CallSafe | src/pipeline.cpp:777-1127 | in the state a call starts in, every driver call it will issue is safe |
| PipelineProgress.StepInv | src/pipeline.cpp:691-1127 | every step of host, application or GPU keeps the system invariant |
| PipelineProgress.RunInv | src/pipeline.cpp:691-1127 | the invariant holds at the end of every run |
| PipelineSafety.SignalsIncreaseByOne | src/pipeline.cpp:713-738 | a signal that can execute takes the counter to the next value, its own |
| PipelineSafety.SignalsInSubmissionOrder | src/pipeline.cpp:860-937 | over a context's whole life, both tiers, with or without CNN, across resizes, batches signal in submission order |
| PipelineSafety.WaitsNameSubmittedSignals | src/pipeline.cpp:748-1123 | every internal wait names the signal of an earlier submitted batch |
| PipelineSafety.AgentsOrdered | src/pipeline.cpp:943-1068 | of two batches on different agents the later begins only after the earlier has completed and signalled |
| PipelineSafety.NoRace | src/pipeline.cpp:691-1119 | no two conflicting accesses on different agents to luma, hint, flow or fusion buffers are unordered, across frames and warp-only passes |
| PipelineSafety.PoolsIdleWhenReset | src/pipeline.cpp:525-858 | a pool is reset only when every command buffer taken from it has completed; teardown and descriptor rewrites only when nothing is pending |
| PipelineSafety.AtMostTwoFramesInFlight | src/pipeline.cpp:850-858 | between calls only the last two recording calls can have incomplete work, after resizes too |
| PipelineSafety.SyncCoversEarlierWork | src/pipeline.cpp:938-1125 | when the counter reaches a returned sync value, all batches of that and every earlier call are complete |
| PipelineSafety.WarpFindsFlow | src/pipeline.cpp:1084 | a warp succeeds only after a generate of the same pipeline build |
| PipelineSafety.CanStep | src/pipeline.cpp:691-1127 | no deadlock: while anything is left and the application's waits are met, host or GPU can step |
| PipelineSafety.StepsUseUpWork | src/pipeline.cpp:691-1127 | every step of host or GPU uses up work, so only new calls keep a run going |
| PipelineSafety.AllWorkCompletes | src/pipeline.cpp:691-1127 | from every reachable state all submitted and pending work completes once the application meets its waits |
| PipelineDataflow.CallKeepsShape | src/pipeline.cpp:832-1127 | every call keeps which stage precedes which |
| PipelineDataflow.InputsAreFresh | src/pipeline.cpp:941-1068 | optical flow (luma, and the hint where it is given one), refinement (flow) and residual add (fusion output, and the output image two batches back) read what their own frame's earlier stage wrote last |
| PipelineDataflow.FusionInputFreshIff | src/pipeline.cpp:691-767 | the fusion reads its own frame's packed input iff the learned interpolator is selected: packing asks for it, dispatch does not |
| PipelineDataflow.StaleFusionInput | src/pipeline.cpp:691-767 | with another interpolator and a successful CUDA import, the first frame of every such context runs a fusion whose input nothing ever wrote |
| PipelineDataflow.WarpReadsItsBuildsFlow | src/pipeline.cpp:1080-1119 | a warp-only pass reads a flow refined by a generate call of its own pipeline build |
| PipelineCalls.WorkWaitsForApplication | src/pipeline.cpp:930-1115 | whatever the queues do, no batch submitted from a call with an application semaphore on has begun before the application released that call's first batch |
| PipelineCalls.WorkNeedsNoRelease | src/pipeline.cpp:930-1115 | without one, the first batch can begin as soon as the waits before it on its queue are met |
| PipelineCalls.TierRespected | src/pipeline.cpp:188-1068 | in every run the optical flow engine works only on contexts that have one, the shader flow only on the others, and hints are given only on the former and on request |
| PipelineCalls.GenerateAnswers | src/pipeline.cpp:832-840 | exactly when a generate call succeeds, and which error it gives otherwise |
| Resolver.CubeInside | renderfx/src/resolve.cpp:154-156 | the triple loop visits exactly all combinations of candidate positions |
| Resolver.CubeSorted | renderfx/src/resolve.cpp:154-156 | in lexicographic order |
| ResolverSearch.FindEntry | renderfx/src/resolve.cpp:12-16 | the first table entry of a stage and id |
| ResolverSearch.FillCandidates | renderfx/src/resolve.cpp:30-54 | fills the twelve-entry array with the candidates, never beyond it, for every table that does not overrun |
| ResolverSearch.Search | renderfx/src/resolve.cpp:151-163 | the loops keep the best combination of those visited |
| ResolverSearch.RfxResolve | renderfx/src/resolve.cpp:136-178 | the answer is that of the resolver function, with null arguments refused |
| ResolverOptimal.ResolveIsFirstMaximum | renderfx/src/resolve.cpp:136-178 | the answer is the lexicographically first maximum; no selection iff no combination is eligible |
| ResolverOptimal.NoSelectionIff | renderfx/src/resolve.cpp:136-165 | for any table, no selection iff no choice of one candidate per stage meets the constraints with a total above INT_MIN |
| ResolverOptimal.NoSelectionIffNoCombination | renderfx/src/resolve.cpp:151-165 | with overflow-free scores, no selection iff no combination of candidates meets the constraints |
| ResolverOptimal.ScoresFit | renderfx/src/resolve.cpp:18-27 | no step of an entry's score overflows an int for tiers and costs up to 10^8 |
| ResolverOptimal.TotalFits | renderfx/src/resolve.cpp:159-161 | neither does the sum over the stages |
| ResolverOptimal.InputsAreUnion | renderfx/src/resolve.cpp:167-176 | a frame input is asked for exactly if some chosen backend requires it |
| ResolverIntent.OverrunIff | renderfx/src/resolve.cpp:30-54 | more than twelve candidates if and only if the stage is automatic, the table full and every entry admitted |
| ResolverIntent.FilterLoopFits | renderfx/src/resolve.cpp:43-53 | otherwise no write of the loop lies beyond the array |
| ResolverIntent.CandidatesFit | renderfx/src/resolve.cpp:30-54 | tables with distinct ids in range never overrun |
| ResolverIntent.Pigeonhole | renderfx/src/resolve.cpp:44-53 | distinct ids from 1 to m are at most m many |
| ResolverIntent.RepeatedIdsOverflow | renderfx/src/resolve.cpp:44-53 | a table of one open backend repeated overruns for every preference that leaves its stage automatic without a vendor pin |
| ResolverIntent.CandidatesOrdered | renderfx/src/resolve.cpp:30-54 | candidates come without repetition, None first and then in table order |
| ResolverIntent.NarrowerIntents | renderfx/src/resolve.cpp:116-133 | open-source-only, a first vendor pin and deterministic narrow the filter and keep the scores; debug does exactly if it was on already or no backend of the table is vendor-neutral |
| ResolverIntent.ResolvedBackendsWin | renderfx/src/resolve.cpp:136-178 | the same in terms of backends: valid, maximal, first in candidate order |
| ResolverIntent.NarrowingNeverRaises | renderfx/src/resolve.cpp:30-163 | narrowing never raises the best score nor turns no selection into one |
| ResolverIntent.NarrowingKeepsSurvivors | renderfx/src/resolve.cpp:30-163 | if the wider answer's automatic choices survive the filter, the backends are the same, ties included |
| ResolverMaximal.LeftOutScoresNoMore | renderfx/src/resolve.cpp:154-163 | for any table, a compatible candidate of a stage resolved to None scores at most zero |
| ResolverMaximal.FilledIffSomethingImproves | renderfx/src/resolve.cpp:136-178 | where a stage could also be disabled, it is filled if and only if some candidate fits the other choices and scores above zero |
| ResolverMaximal.LeftOutIffNothingWorthHaving | renderfx/src/resolve.cpp:18-54 | an automatic stage without family constraints resolves to None if and only if no entry admitted for it scores above zero |
| ResolverMaximal.AlwaysWorthIff | renderfx/src/resolve.cpp:23-26 | a backend scores above zero under every preference if and only if 1000 plus its tier exceeds five times its cost |
| ResolverMaximal.ResolvedIsMaximal | renderfx/src/resolve.cpp:18-27 | in a table of such backends, a stage resolved to None has no candidate compatible with the other choices |
| ResolverMaximal.CostlyBackendIsLeftOut | renderfx/src/resolve.cpp:23-26 | at the threshold, tier 0 and cost 200, a supported backend loses to a disabled stage |
| ResolverDebug.DebugNeverSelectsMore | renderfx/src/resolve.cpp:40-53 | debug mode never turns no selection into one |
| ResolverDebug.DebugRaisesByNatives | renderfx/src/resolve.cpp:18-27 | it raises the best score by at most 200 for each vendor-neutral backend it picks |
| ResolverDebug.DebugNeverRaisesIff | renderfx/src/resolve.cpp:24-165 | it never raises the best score of any preference if and only if no supported combination that meets the constraints has a vendor-neutral backend |
| ResolverDebug.DebugChangesSurvivor | renderfx/src/resolve.cpp:24-133 | it can raise the best score and change the answer although the backend chosen without it is still a candidate |
| ResolverSpec.CandidateIff | renderfx/src/resolve.cpp:43-53 | for any table, an id is a candidate of an automatic stage iff some entry of the stage with that id is supported, allowed as to licence, determinism and vendor |
| ResolverSpec.OfferedIff | renderfx/src/resolve.cpp:30-54 | what is offered for a stage that is off, overridden or automatic |
| ResolverSpec.GoTogetherIff | renderfx/src/resolve.cpp:56-69 | choices are valid together iff each chosen entry's demand names a stage that has a real backend of the family it asks for |
| ResolverSpec.TotalIff | renderfx/src/resolve.cpp:18-133 | the score of a choice from tiers, costs and the settings of the preference |
| ResolverSpec.ResolvesIff | renderfx/src/resolve.cpp:136-178 | the resolver answers with p iff p is possible and unbeaten, ties in table order; no selection iff nothing is possible |
| ResolverSpec.SelectionHonoursIntent | renderfx/src/resolve.cpp:30-178 | stages that are off resolve to None, overridden ones to a supported override, automatic ones to None or an entry the preference admits |
| ResolverSpec.InputsIff | renderfx/src/resolve.cpp:167-176 | a frame input is asked for iff the entry chosen for some stage requires it |
| WeightFile.FileWriter.Export | training/export.py:28-39 | appends the file's octets: magic, header, count, records in dictionary order |
| WeightFile.FileWriter.WriteTensor | training/export.py:32-39 | appends one record: name, dimensions, values |
| WeightFile.FileReader.ReadU32 | src/cnn_model.cpp:7 | four octets, or zero and the end of the file |
| WeightFile.FileReader.ReadTensorDims | src/cnn_model.cpp:27-29 | dimensions as signed casts and their count in 64-bit arithmetic |
| WeightFile.FileReader.ReadTensor | src/cnn_model.cpp:20-33 | one record, or failure exactly where the loader gives up |
| WeightFile.CnnModel.LoadCnnModel | src/cnn_model.cpp:9-37 | model and answer after a load, failing loads included |
| WeightFile.AcceptsExactly | src/cnn_model.cpp:9-37 | a fresh model accepts a file iff it is a written file of at least one loadable tensor followed by anything |
| WeightFile.LoadsWritten | src/cnn_model.cpp:9-37 | loading a written file gives back header and tensors, whatever follows it |
| WeightFile.PrefixRejected | src/cnn_model.cpp:7-37 | every strict prefix of a written file is rejected |
| WeightFile.InsertLookup | src/cnn_model.cpp:33 | the last tensor of a name is found under it |
| WeightFile.SampleFile | training/export.py:28-39 | a whole file of one tensor, octet by octet |
| WeightFile.VectorLoadableIff | src/cnn_model.cpp:20-33 | a vector loads iff it has one to 2^28 values and a name of one to 256 octets |
| WeightFile.CountIsProduct | src/cnn_model.cpp:28-29 | for positive dimensions within the limit the 64-bit count is their product |
| WeightFile.NegativeDimensionsLoad | src/cnn_model.cpp:27-29 | only the product is checked: two negative dimensions are accepted |
| WeightFile.BothReadersAgree | training/export.py:45-60 | the exporter's own reader and the runtime get the same header and tensors from an exported file |
| Relocation.ApplyRelocations | experiments/dlssg-native/pe_probe.c:75-93 | the walk in place leaves the relocated image |
| Relocation.WalkBlock | experiments/dlssg-native/pe_probe.c:83-90 | one block's entries patch exactly that block's 64-bit slots and leave the table alone |
| Relocation.Patch | experiments/dlssg-native/pe_probe.c:87-89 | one slot raised in place |
| Relocation.WalkAddsToSlots | experiments/dlssg-native/pe_probe.c:78-93 | nothing off the DIR64 slots changes, and delta is added modulo 2^64 to each slot if no two overlap |
| Relocation.SameSlots | experiments/dlssg-native/pe_probe.c:78-93 | a second walk over the moved image finds the same slots |
| Relocation.RelocationsCompose | experiments/dlssg-native/pe_probe.c:75-93 | with no two slots overlapping, relocating by d1 and then d2 is relocating by their 64-bit sum |
| RelocationTable.WalkFindsNamed | experiments/dlssg-native/pe_probe.c:78-93 | over a written table the walk finds exactly the addresses page + offset of its type-10 fixups, in order, and stops at its end |
| RelocationTable.TableWellPlaced | experiments/dlssg-native/pe_probe.c:78-93 | such a table is well placed iff those addresses lie in the image and off the table |
| Pacer.NvofgPacer.WaitSlot | src/pacer.cpp:52-74 | the slot and new state for the entry time, returning no earlier than the slot; the whole history of calls stays a legal run, to which the results below apply |
| Pacer.NvofgPacer.Restart | src/pacer.cpp:81-83 | forgets the schedule |
| Pacer.NvofgPacer.NextSlotTime | src/pacer.cpp:76-79 | announces the slot the next call gets unless it comes more than a period late |
| Pacer.PeriodBounds | src/pacer.cpp:26-28 | a positive rate's period is a second over the rate rounded down; any other rate counts as 60 Hz |
| Pacer.PeriodPositive | src/pacer.cpp:26-28 | the period is positive exactly up to one gigahertz |
| Pacer.FirstSlot | src/pacer.cpp:52-58 | the first call after a start or reset gets its entry time |
| Pacer.NextSlot | src/pacer.cpp:59-73 | every other call gets the slot one period after the last, or its entry time if that is more than two periods after the last |
| Pacer.SlotSpacing | src/pacer.cpp:52-74 | consecutive slots between resets differ by exactly one period or by more than two |
| Pacer.NeverEarly | src/pacer.cpp:66-71 | no call returns before its slot |
| Pacer.SlotsNondecreasing | src/pacer.cpp:52-83 | slots never go back, across resets too |
| Pacer.RateBound | src/pacer.cpp:52-74 | any window of time contains at most its length over the period plus two complete calls between resets |
| Pacer.RateBoundIsTight | src/pacer.cpp:52-74 | and that many do occur |
| Splat.SplatChannel | training/model.py:26-48 | the scatter-add loops compute the gather form at every point |
| Splat.ScatterAdd | training/model.py:37-47 | one corner adds exactly what is directed to each point |
| Splat.SplatConserves | training/model.py:26-48 | a splatted channel sums to the sources' values times the part of their bilinear weight on the grid |
| Splat.SplatPreservesSum | training/model.py:26-48 | to the input sum when no corner with weight leaves the grid |
| Splat.SumPreservedIff | training/model.py:43-46 | a flow preserves every channel's sum if and only if no corner with weight leaves the grid |
| Splat.ZeroFlowIsIdentity | training/model.py:31-48 | a zero flow splats every channel to itself |
| Splat.SoftmaxStaysInRange | training/model.py:51-56 | softmax splatting keeps values within [0, hi] for any positive weights |
| Splat.SoftmaxSplat | training/model.py:51-56 | the quotient of the two splats at every point, with a positive denominator |
| SplatLaws.SplatIsGather | training/model.py:26-48 | for every flow, each point gets from each source its value times a tent of the horizontal and vertical distance between the point and the source carried by the flow |
| SplatLaws.StaysInsideIff | training/model.py:31-46 | no corner with weight leaves the grid iff the source is carried to a place between the outermost columns and rows |
| SplatLaws.FirstMoments | training/model.py:26-48 | when every source lands, columns and rows of the output average to those of the sources plus their flow |
| SplatLaws.SumPreservedIffLands | training/model.py:31-46 | a flow preserves every channel's sum iff every source lands |
| SplatLaws.IntegerFlow | training/model.py:31-47 | a source moved by whole pixels into the grid puts its whole value at that one point |
| SplatLaws.SoftmaxIsGather | training/model.py:51-56 | softmax splatting divides two such gathers, the denominator raised by a millionth |
| FusionOps.FlatInside | src/cnn_infer.cpp:37-52 | a flat index of an element lies in its buffer |
| FusionOps.FlatSplits | src/cnn_infer.cpp:47-50 | and names that element only |
| FusionOps.FlatCovers | src/cnn_infer.cpp:39-50 | and every place of the buffer is such an index |
| FusionOps.Conv3 | src/cnn_infer.cpp:36-54 | the six nested loops write the convolution, all accesses in bounds |
| FusionOps.ConvPoint | src/cnn_infer.cpp:43-49 | the inner loops, which skip taps off the image, sum the zero-padded correlation |
| FusionOps.ConvAt | src/cnn_infer.cpp:36-54 | each output element is the zero-padded 3x3 cross-correlation at its place, at any stride |
| ConvLaws.OneEntryMoves | src/cnn_infer.cpp:36-54 | a kernel with one entry copies its input channel, scaled and moved by the entry's place, to its output channel at any stride, and leaves the others zero |
| ConvLaws.KernelsAdd | src/cnn_infer.cpp:43-49 | the convolution is additive in the kernel |
| ConvLaws.BiasAdds | src/cnn_infer.cpp:43-50 | the bias of an output channel is added to each of its elements |
| ConvLaws.Placements | src/cnn_infer.cpp:38 | there is an output position for exactly the placements of the kernel that fit in the bordered image |
| FusionOps.ZeroConv | src/cnn_infer.cpp:36-54 | zero weights and bias give zero everywhere |
| FusionOps.Gated | src/cnn_infer.cpp:58-63 | each feature activated and scaled by its gate |
| FusionOps.Upsample | src/cnn_infer.cpp:67-85 | the loops, which do not write in order, fill the whole upsampled buffer |
| FusionOps.UpConvex | src/cnn_infer.cpp:67-85 | every upsampled value is a convex combination of four samples of its own channel at adjacent rows and columns in the image, with row and column weights that average to the source coordinate, clamped into the image |
| FusionOps.UpWithinChannel | src/cnn_infer.cpp:67-85 | so it lies within the range of its own channel |
| FusionOps.UpIdentity | src/cnn_infer.cpp:67-85 | upsampling to the same size changes nothing |
| FusionOps.CatChannels | src/cnn_infer.cpp:86-88 | the concatenation holds a's channels, then b's |
| FusionNet.Extents | src/cnn_infer.cpp:38 | stride 1 keeps an extent, stride 2 halves it rounding up |
| FusionNet.Joined | src/cnn_infer.cpp:99-101 | the upsampled level matches the skip connection it is concatenated with |
| FusionNet.JoinedChannels | src/cnn_infer.cpp:86-101 | the joined channels are the upsampled deeper ones, then the skip connection's |
| FusionNet.GatedElement | src/cnn_infer.cpp:56-63 | an element of a gated layer is its feature, a tenth of it if negative, times the sigmoid of its gate |
| FusionNet.Encode | src/cnn_infer.cpp:97-98 | channels and extents of the four encoder levels |
| FusionNet.Decode | src/cnn_infer.cpp:99-101 | the decoder returns to the first level's extent |
| FusionNet.NetResult | src/cnn_infer.cpp:92-104 | exactly 3 h w entries for every extent, all zero when the output convolution is zero |
| FusionNet.NetReads | src/cnn_infer.cpp:92-104 | the result depends on the 58 tensors of the net's layers and on no other |
| FusionNet.RunGated | src/cnn_infer.cpp:58-63 | both convolutions of a gated layer, activated and gated |
| FusionNet.RunPair | src/cnn_infer.cpp:64-66 | two gated layers, the stride on the first only |
| FusionNet.RunFusionCPU | src/cnn_infer.cpp:92-104 | the run computes the net, or nothing for an invalid model or a wrong input size |

## Left out

- StubEmitter.EmitMs2SysvTyped: struct-by-value arguments and variadic prototypes, which the source lists as not implemented
- StubEmitter.TypedArena.Make: an arena in which the next stub does not fit; the source emits before it checks, and writes past the arena's end
- CommonThunk.HostCode.MakeMs2Sysv: a region in which the next trampoline does not fit, which the source does not check for
- `ms_typed`: the same emitter into a fresh mapping
- Stack accesses off an eight-octet boundary have no meaning in the machine model; the thunks make none from an aligned entry
- Pipeline: creation and destruction of individual Vulkan objects, descriptor contents, barriers and push constants; a batch is a set of reads and writes, and accesses on the same queue count as ordered
- Pipeline: the one-off clearing submission during a build, which is waited for on the spot; failing submissions; `nvofg_destroy`; contexts shared between threads
- Pipeline: a timeline value beyond 64 bits
- PipelineSafety.NoRace: images owned by the application, whose use it synchronises itself
- Descriptor freshness after re-registering images on a live pipeline; the register functions do not rewrite the sets
- Resolver: the explanation attached to a selection; its cost and alternative reasons come from weights and tiers, not from comparing candidates
- ResolverSearch.FillCandidates: tables that overrun (`ResolverIntent.OverrunIff`), for which the source writes past its array
- ResolverSearch.RfxResolve: the same tables, at a stage the source comes to
- WeightFile: conversion of a state dictionary to fp16, and decoding of names as text
- Relocation.ApplyRelocations: images whose slots overlap the table or leave the image, or whose table is not inside the image
- Relocation.RelocationsCompose: images with overlapping slots
- Pacer: the sleep before the spin, which only lets time pass; nanosecond counts beyond 64 bits; multiplier and quality settings
- Splat: batches, which are independent, and the warp candidate built from two splats
- FusionOps: rounding of floats, and the conversion of weights from half precision
- Training, losses, evaluation, shaders, CUDA kernels, the Rust wrappers, the vendor backends, and the rest of the native host
