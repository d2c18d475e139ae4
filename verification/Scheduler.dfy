/** The scheduler as a transition system: a task is accepted into the task store, launched into
    the process store or left waiting there; when a process is reaped, at most one waiting task
    is launched in its place. What the operating system does - whether a fork succeeds, which
    processes have finished - comes with the events. */
module Scheduler {
  import opened CBytes
  import opened SlotStore
  import opened TaskRecord

  datatype Job = Job(name: string, def: TaskDef)
  datatype Process = Process(name: string, pid: int)

  /** A task handed to the operating system. */
  datatype Launch = Launch(job: Job, pid: int)

  /** What has happened so far. Not part of the server's memory. */
  datatype Log = Log(accepted: seq<Job>, launched: seq<Launch>, reaped: seq<Process>)

  datatype Sys = Sys(ws: Workspace, tasks: Slots<Job>, procs: Slots<Process>, log: Log)

  /** The outcome of opening the pipes and forking: the child's pid, or a failure. */
  type Fork = Option<int>

  datatype Reply =
    | InvalidCommand | NotFound | Queued | LaunchFailed | Started | WorkspaceMissing | WorkspaceSet

  ghost predicate Sound(s: Sys) {
    Wf(s.tasks) && Wf(s.procs)
  }

  function Init(ws: Workspace, taskCap: nat, procCap: nat): (s: Sys)
    ensures Sound(s)
  {
    EmptyWf<Job>(taskCap);
    EmptyWf<Process>(procCap);
    Sys(ws, Empty(taskCap), Empty(procCap), Log([], [], []))
  }

  // ----- matching -----------------------------------------------------------------------

  /** Some live process has the name. */
  predicate Running(items: seq<Option<Process>>, name: string) {
    exists i :: 0 <= i < |items| && items[i].Some? && items[i].value.name == name
  }

  /** At submission: the awaited name is compared in full. */
  predicate MustWait(procs: Slots<Process>, def: TaskDef) {
    def.wait.Some? && Running(procs.items, def.wait.value)
  }

  /** In the queue: a task is released when the finished name is a prefix of the one it waits
      for, or when it waits for nothing. */
  predicate Released(def: TaskDef, finished: string) {
    def.wait.None? || finished <= def.wait.value
  }

  /** The highest slot below `i` holding a released task. */
  function FindReleased(items: seq<Option<Job>>, finished: string, i: nat): (j: Option<nat>)
    requires i <= |items|
    ensures j.Some? ==> j.value < i && items[j.value].Some? && Released(items[j.value].value.def, finished)
    ensures forall k :: (if j.Some? then j.value < k < i else 0 <= k < i) ==>
              !(items[k].Some? && Released(items[k].value.def, finished))
  {
    if i == 0 then None
    else if items[i - 1].Some? && Released(items[i - 1].value.def, finished) then Some(i - 1)
    else FindReleased(items, finished, i - 1)
  }

  // ----- steps ------------------------------------------------------------------------------

  predicate CanLaunch(s: Sys, fork: Fork) {
    s.procs.free != [] && fork.Some?
  }

  /** `server_task_launch` when it succeeds. */
  function Launched(s: Sys, job: Job, pid: int): (t: Sys)
    requires s.procs.free != [] && NextSlot(s.procs) < |s.procs.items|
  {
    s.(procs := Push(s.procs, Process(job.name, pid)),
       log := s.log.(launched := s.log.launched + [Launch(job, pid)]))
  }

  /** `get_task` when it succeeds: the task takes the next slot. */
  function Accepted(s: Sys, job: Job): Sys
    requires s.tasks.free != [] && NextSlot(s.tasks) < |s.tasks.items|
  {
    s.(tasks := Push(s.tasks, job), log := s.log.(accepted := s.log.accepted + [job]))
  }

  /** A newly accepted task is left waiting or launched at once; one whose launch fails stays in
      the store. */
  function Dispatch(s: Sys, slot: nat, fork: Fork): (r: (Sys, Reply))
    requires Live(s.tasks, slot) && Sound(s)
  {
    var job := s.tasks.items[slot].value;
    if MustWait(s.procs, job.def) then (s, Queued)
    else if !CanLaunch(s, fork) then (s, LaunchFailed)
    else (Launched(s, job, fork.value).(tasks := Remove(s.tasks, slot)), Started)
  }

  /** Whether a run request finds its task and a slot for it. */
  predicate Acceptable(s: Sys, name: Option<string>, envs: seq<string>) {
    name.Some? && s.tasks.free != [] && Load(s.ws, name.value, envs).Some?
  }

  /** A run request. */
  function Submit(s: Sys, name: Option<string>, envs: seq<string>, fork: Fork): (r: (Sys, Reply))
    requires Sound(s)
  {
    if !Acceptable(s, name, envs) then (s, NotFound)
    else
      var job := Job(name.value, Load(s.ws, name.value, envs).value);
      PushWf(s.tasks, job);
      Dispatch(Accepted(s, job), NextSlot(s.tasks), fork)
  }

  /** `server_check_task_queue` after a process of that name has gone. */
  function CheckQueue(s: Sys, finished: string, fork: Fork): Sys
    requires Sound(s)
  {
    var j := FindReleased(s.tasks.items, finished, |s.tasks.items|);
    if s.procs.free == [] || j.None? || !CanLaunch(s, fork) then s
    else
      var job := s.tasks.items[j.value].value;
      Launched(s, job, fork.value).(tasks := Remove(s.tasks, j.value))
  }

  function Reaped(s: Sys, i: nat): Sys
    requires Live(s.procs, i)
  {
    s.(procs := Remove(s.procs, i),
       log := s.log.(reaped := s.log.reaped + [s.procs.items[i].value]))
  }

  /** The process in slot `i`, if any, is found finished. */
  function Finish(s: Sys, i: nat, fork: Fork): Sys
    requires Sound(s)
  {
    if !Live(s.procs, i) then s
    else
      RemoveWf(s.procs, i);
      CheckQueue(Reaped(s, i), s.procs.items[i].value.name, fork)
  }

  datatype Event =
    | SubmitEvent(name: Option<string>, envs: seq<string>, fork: Fork)
    | FinishEvent(slot: nat, fork: Fork)
    | SetEvent(ws: Workspace)

  function Step(s: Sys, e: Event): (t: Sys)
    requires Sound(s)
    ensures Sound(t) && |t.tasks.items| == |s.tasks.items| && |t.procs.items| == |s.procs.items|
  {
    StepSound(s, e);
    match e
    case SubmitEvent(name, envs, fork) => Submit(s, name, envs, fork).0
    case FinishEvent(slot, fork) => Finish(s, slot, fork)
    case SetEvent(ws) => s.(ws := ws)
  }

  function Run(s: Sys, es: seq<Event>): (t: Sys)
    requires Sound(s)
    ensures Sound(t) && |t.tasks.items| == |s.tasks.items| && |t.procs.items| == |s.procs.items|
  {
    if es == [] then s else Step(Run(s, es[..|es| - 1]), es[|es| - 1])
  }

  // ----- the stores stay sound -----------------------------------------------------------------

  ghost predicate SameSize(s: Sys, t: Sys) {
    Sound(t) && |t.tasks.items| == |s.tasks.items| && |t.procs.items| == |s.procs.items|
  }

  lemma DispatchSound(s: Sys, slot: nat, fork: Fork)
    requires Live(s.tasks, slot) && Sound(s)
    ensures SameSize(s, Dispatch(s, slot, fork).0)
  {
    var job := s.tasks.items[slot].value;
    hide Wf, MustWait;
    RemoveWf(s.tasks, slot);
    if CanLaunch(s, fork) {
      PushWf(s.procs, Process(job.name, fork.value));
    }
  }

  lemma SubmitSound(s: Sys, name: Option<string>, envs: seq<string>, fork: Fork)
    requires Sound(s)
    ensures SameSize(s, Submit(s, name, envs, fork).0)
  {
    if Acceptable(s, name, envs) {
      var job := Job(name.value, Load(s.ws, name.value, envs).value);
      hide Wf, Load, Dispatch;
      PushWf(s.tasks, job);
      DispatchSound(Accepted(s, job), NextSlot(s.tasks), fork);
    }
  }

  lemma CheckQueueSound(s: Sys, finished: string, fork: Fork)
    requires Sound(s)
    ensures SameSize(s, CheckQueue(s, finished, fork))
  {
    var j := FindReleased(s.tasks.items, finished, |s.tasks.items|);
    if j.Some? && CanLaunch(s, fork) {
      var job := s.tasks.items[j.value].value;
      hide Wf;
      RemoveWf(s.tasks, j.value);
      PushWf(s.procs, Process(job.name, fork.value));
    }
  }

  lemma StepSound(s: Sys, e: Event)
    requires Sound(s)
    ensures match e
            case SubmitEvent(name, envs, fork) => SameSize(s, Submit(s, name, envs, fork).0)
            case FinishEvent(slot, fork) => SameSize(s, Finish(s, slot, fork))
            case SetEvent(_) => true
  {
    match e
    case SubmitEvent(name, envs, fork) => SubmitSound(s, name, envs, fork);
    case FinishEvent(slot, fork) =>
      if Live(s.procs, slot) {
        RemoveWf(s.procs, slot);
        CheckQueueSound(Reaped(s, slot), s.procs.items[slot].value.name, fork);
      }
    case SetEvent(_) =>
  }

  /** Running two event lists one after the other. */
  lemma {:induction false} RunAppend(s: Sys, a: seq<Event>, b: seq<Event>)
    requires Sound(s)
    ensures Run(s, a + b) == Run(Run(s, a), b)
    decreases |b|
  {
    hide Step, Sound;
    if b == [] {
      assert a + b == a;
    } else {
      var n := |b| - 1;
      assert |a + b| - 1 == |a| + n && (a + b)[|a| + n] == b[n];
      assert (a + b)[..|a| + n] == a + b[..n];
      RunAppend(s, a, b[..n]);
    }
  }
}
