/** The whole system: one host thread making API calls, and the queues and the CUDA stream working
    on the submitted batches in any order that semaphore signaling and waiting allow (Vulkan 1.3,
    sections 7.4.1 and 7.4.2). */
module PipelineGpu {
  import opened Pipeline

  datatype Status = Queued | Running | Finished | Signalled

  /** `todo` are the calls the current API call has still to issue. `log` are all batches submitted
      so far, `st` what became of each, `counter` the timeline's value, and `released` the batches
      whose application wait has been satisfied. */
  datatype Sys = Sys(ctx: Ctx, todo: seq<Event>, log: seq<Batch>, st: seq<Status>, counter: nat, released: set<nat>)

  datatype Step =
    | Api(call: ApiCall)    // the host enters an API call
    | Host                  // the host issues the next call of the API call it is in
    | Release(i: nat)       // the application satisfies the wait it gave batch i
    | Start(i: nat)         // batch i begins to execute
    | Finish(i: nat)        // its commands are done
    | Signal(i: nat)        // its signal operation executes

  predicate WaitMet(b: Batch, i: nat, counter: nat, released: set<nat>) {
    match b.wait
    case NoWait => true
    case AppWait => i in released
    case Timeline(v) => counter >= v
  }

  /** A wait holds back its own batch and everything later on its queue: batch i may execute once the
      waits of all batches of its queue up to and including i are met. */
  predicate Unblocked(log: seq<Batch>, counter: nat, released: set<nat>, i: nat)
    requires i < |log|
  {
    forall j :: 0 <= j <= i && SameQueue(log, j, i) ==> WaitMet(log[j], j, counter, released)
  }

  predicate SameQueue(log: seq<Batch>, i: int, j: int)
    requires 0 <= i < |log| && 0 <= j < |log|
  {
    QueueOf(log[i].pass) == QueueOf(log[j].pass)
  }

  /** A signal covers its own batch and everything earlier on its queue. */
  predicate EarlierSignalled(s: Sys, i: nat)
    requires i < |s.log| == |s.st|
  {
    forall j :: 0 <= j < i && SameQueue(s.log, j, i) ==> s.st[j] == Signalled
  }

  /** No work is left on the Vulkan queues; the CUDA stream is not asked. */
  predicate DeviceIdle(s: Sys)
    requires |s.log| == |s.st|
  {
    forall i :: 0 <= i < |s.log| && QueueOf(s.log[i].pass) != CudaStream ==> s.st[i] == Signalled
  }

  predicate HostCanGo(s: Sys)
    requires |s.log| == |s.st|
  {
    s.todo != [] &&
    match s.todo[0]
    case WaitTimeline(v) => s.counter >= v
    case WaitIdle => DeviceIdle(s)
    case _ => true
  }

  predicate Enabled(s: Sys, step: Step)
    requires |s.log| == |s.st|
  {
    match step
    case Api(_) => s.todo == []
    case Host => HostCanGo(s)
    case Release(i) => i < |s.log|
    case Start(i) => i < |s.log| && s.st[i] == Queued && Unblocked(s.log, s.counter, s.released, i)
    case Finish(i) => i < |s.log| && s.st[i] == Running
    case Signal(i) => i < |s.log| && s.st[i] == Finished && EarlierSignalled(s, i)
  }

  function HostStep(s: Sys): (t: Sys)
    requires s.todo != [] && |s.log| == |s.st|
    ensures |t.log| == |t.st|
  {
    match s.todo[0]
    case Submit(b) => s.(todo := s.todo[1..], log := s.log + [b], st := s.st + [Queued])
    case _ => s.(todo := s.todo[1..])
  }

  function Apply(s: Sys, step: Step): (t: Sys)
    requires |s.log| == |s.st| && Enabled(s, step)
    ensures |t.log| == |t.st|
  {
    match step
    case Api(call) =>
      var r := Call(s.ctx, call);
      s.(ctx := r.ctx, todo := r.events)
    case Host => HostStep(s)
    case Release(i) => s.(released := s.released + {i})
    case Start(i) => s.(st := s.st[i := Running])
    case Finish(i) => s.(st := s.st[i := Finished])
    case Signal(i) => s.(st := s.st[i := Signalled], counter := s.log[i].signal)
  }

  /** A run: each step enabled in the state it is taken in. */
  ghost predicate Runs(s: Sys, steps: seq<Step>, t: Sys)
    requires |s.log| == |s.st|
    decreases |steps|
  {
    if steps == [] then t == s
    else Enabled(s, steps[0]) && Runs(Apply(s, steps[0]), steps[1..], t)
  }

  predicate Initial(s: Sys) {
    Fresh(s.ctx) && s.todo == [] && s.log == [] && s.st == [] && s.counter == 0 && s.released == {}
  }
}
