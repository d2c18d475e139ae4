/** Which tasks run alone. A task that waits for its own name has at most one process in every
    run, under the exact condition that no other task's name is a prefix of it. */
module SchedulerExclusion {
  import opened CBytes
  import opened SlotStore
  import opened TaskRecord
  import opened Scheduler

  predicate Loadable(ws: Workspace, name: string) {
    Define(ws, name).Some?
  }

  /** The workspace makes the task wait for its own name. */
  predicate SelfWaiting(ws: Workspace, name: string) {
    Loadable(ws, name) && Define(ws, name).value.wait == Some(name)
  }

  /** No other task of the workspace has a name that `name` starts with. */
  ghost predicate PrefixFree(ws: Workspace, name: string) {
    forall other: string :: Loadable(ws, other) && other <= name ==> other == name
  }

  predicate Named(items: seq<Option<Process>>, i: int, name: string) {
    0 <= i < |items| && items[i].Some? && items[i].value.name == name
  }

  ghost predicate AtMostOne(items: seq<Option<Process>>, name: string) {
    forall i, j :: Named(items, i, name) && Named(items, j, name) ==> i == j
  }

  /** The workspace stays the same. */
  predicate Fixed(es: seq<Event>) {
    forall i :: 0 <= i < |es| ==> !es[i].SetEvent?
  }

  predicate FromWs(ws: Workspace, job: Job) {
    Loadable(ws, job.name) && job.def.wait == Define(ws, job.name).value.wait
  }

  /** Waiting tasks and live processes come from the workspace, and `name` runs at most once. */
  ghost predicate Inv(s: Sys, name: string) {
    && (forall i :: Live(s.tasks, i) ==> FromWs(s.ws, s.tasks.items[i].value))
    && (forall i :: Live(s.procs, i) ==> Loadable(s.ws, s.procs.items[i].value.name))
    && AtMostOne(s.procs.items, name)
  }

  /** In the process store `procs`, the process `p` stands alone against `name`: every process of
      that name is `p` itself. */
  ghost predicate Alone(procs: Slots<Process>, p: Process, name: string) {
    exists k :: Live(procs, k) && procs.items[k].value == p
      && forall i :: Named(procs.items, i, name) ==> i == k
  }

  /** Between `s` and `t` at most one task was launched; if it waits for `name`, no process of
      that name was live when it was. */
  ghost predicate LaunchesAlone(s: Sys, t: Sys, name: string) {
    t.log.launched == s.log.launched ||
    exists l :: t.log.launched == s.log.launched + [l]
      && (l.job.def.wait == Some(name) ==> Alone(t.procs, Process(l.job.name, l.pid), name))
  }

  // ----- one launch ------------------------------------------------------------------------

  /** Launching is safe for `name` when no such process is live, or the task has another name
      and waits for something else. */
  lemma LaunchSafe(s: Sys, j: nat, pid: int, name: string)
    requires Sound(s) && s.procs.free != [] && Live(s.tasks, j) && Inv(s, name)
    requires var job := s.tasks.items[j].value;
             Running(s.procs.items, name) ==> job.name != name && job.def.wait != Some(name)
    ensures var t := Launched(s, s.tasks.items[j].value, pid).(tasks := Remove(s.tasks, j));
            Inv(t, name) && LaunchesAlone(s, t, name)
  {
    var job := s.tasks.items[j].value;
    var p := Process(job.name, pid);
    var t := Launched(s, job, pid).(tasks := Remove(s.tasks, j));
    var k := NextSlot(s.procs);
    PushWf(s.procs, p);
    assert FromWs(s.ws, job);
    hide Wf, Loadable;
    assert forall i :: i != k && Named(t.procs.items, i, name) ==> Named(s.procs.items, i, name);
    if Running(s.procs.items, name) {
      assert !Named(t.procs.items, k, name);
    } else {
      assert forall i :: !Named(s.procs.items, i, name);
      assert Live(t.procs, k) && t.procs.items[k].value == p;
      assert Alone(t.procs, p, name);
    }
    assert t.log.launched == s.log.launched + [Launch(job, pid)];
  }

  // ----- one step ------------------------------------------------------------------------------

  lemma AcceptSafe(s: Sys, job: Job, name: string)
    requires Sound(s) && s.tasks.free != [] && Inv(s, name) && FromWs(s.ws, job)
    ensures Inv(Accepted(s, job), name)
  {
    hide Loadable;
    var t := Accepted(s, job);
    assert forall i :: Live(t.tasks, i) ==> i == NextSlot(s.tasks) || Live(s.tasks, i);
  }

  lemma DispatchSafe(s: Sys, slot: nat, fork: Fork, name: string)
    requires Sound(s) && Live(s.tasks, slot) && Inv(s, name) && SelfWaiting(s.ws, name)
    ensures Inv(Dispatch(s, slot, fork).0, name) && LaunchesAlone(s, Dispatch(s, slot, fork).0, name)
  {
    var job := s.tasks.items[slot].value;
    assert FromWs(s.ws, job);
    if CanLaunch(s, fork) && !MustWait(s.procs, job.def) {
      hide Sound, Inv, LaunchesAlone, Running, Define;
      LaunchSafe(s, slot, fork.value, name);
    }
  }

  lemma SubmitSafe(s: Sys, who: Option<string>, envs: seq<string>, fork: Fork, name: string)
    requires Sound(s) && Inv(s, name) && SelfWaiting(s.ws, name)
    ensures Inv(Submit(s, who, envs, fork).0, name) && LaunchesAlone(s, Submit(s, who, envs, fork).0, name)
  {
    if Acceptable(s, who, envs) {
      var job := Job(who.value, Load(s.ws, who.value, envs).value);
      assert FromWs(s.ws, job);
      hide Wf, Load, Dispatch, Inv, FromWs, SelfWaiting;
      PushWf(s.tasks, job);
      AcceptSafe(s, job, name);
      DispatchSafe(Accepted(s, job), NextSlot(s.tasks), fork, name);
    }
  }

  lemma ReapSafe(s: Sys, i: nat, name: string)
    requires Sound(s) && Live(s.procs, i) && Inv(s, name)
    ensures Inv(Reaped(s, i), name) && Loadable(s.ws, s.procs.items[i].value.name)
    ensures s.procs.items[i].value.name == name ==> !Running(Reaped(s, i).procs.items, name)
  {
    hide Wf, Loadable, FromWs;
    var t := Reaped(s, i);
    assert forall k :: Named(t.procs.items, k, name) ==> Named(s.procs.items, k, name) && k != i;
    assert forall k :: Live(t.procs, k) ==> Live(s.procs, k) && t.procs.items[k] == s.procs.items[k];
    if s.procs.items[i].value.name == name {
      assert Named(s.procs.items, i, name);
      assert forall k :: !Named(t.procs.items, k, name);
      forall k | 0 <= k < |t.procs.items|
        ensures !(t.procs.items[k].Some? && t.procs.items[k].value.name == name)
      {
        assert !Named(t.procs.items, k, name);
      }
    }
  }

  /** A finished name that does not release tasks waiting for `name`, or the last of that name. */
  lemma QueueSafe(s: Sys, finished: string, fork: Fork, name: string)
    requires Sound(s) && Inv(s, name) && SelfWaiting(s.ws, name)
    requires Running(s.procs.items, name) ==> !(finished <= name)
    ensures Inv(CheckQueue(s, finished, fork), name) && LaunchesAlone(s, CheckQueue(s, finished, fork), name)
  {
    var j := FindReleased(s.tasks.items, finished, |s.tasks.items|);
    if j.Some? && CanLaunch(s, fork) {
      var job := s.tasks.items[j.value].value;
      assert Live(s.tasks, j.value) && FromWs(s.ws, job) && Released(job.def, finished);
      hide Inv, LaunchesAlone, FindReleased, Wf, Running, Define;
      LaunchSafe(s, j.value, fork.value, name);
    }
  }

  /** Reaping a process that `name` cannot be mistaken for. */
  lemma FinishSafe(s: Sys, i: nat, fork: Fork, name: string)
    requires Sound(s) && Inv(s, name) && SelfWaiting(s.ws, name) && PrefixFree(s.ws, name)
    ensures Inv(Finish(s, i, fork), name) && LaunchesAlone(s, Finish(s, i, fork), name)
  {
    if Live(s.procs, i) {
      hide Inv, CheckQueue, Running, SelfWaiting, Loadable;
      RemoveWf(s.procs, i);
      ReapSafe(s, i, name);
      QueueSafe(Reaped(s, i), s.procs.items[i].value.name, fork, name);
    }
  }

  lemma StepSafe(s: Sys, e: Event, name: string)
    requires Sound(s) && Inv(s, name) && SelfWaiting(s.ws, name) && PrefixFree(s.ws, name) && !e.SetEvent?
    ensures Inv(Step(s, e), name) && LaunchesAlone(s, Step(s, e), name) && Step(s, e).ws == s.ws
  {
    hide Inv, LaunchesAlone, SelfWaiting, PrefixFree, Sound, Submit, Finish;
    if e.SubmitEvent? {
      SubmitSafe(s, e.name, e.envs, e.fork, name);
      SubmitWs(s, e.name, e.envs, e.fork);
    } else {
      FinishSafe(s, e.slot, e.fork, name);
      FinishWs(s, e.slot, e.fork);
    }
  }

  lemma SubmitWs(s: Sys, who: Option<string>, envs: seq<string>, fork: Fork)
    requires Sound(s)
    ensures Submit(s, who, envs, fork).0.ws == s.ws
  {
  }

  lemma FinishWs(s: Sys, i: nat, fork: Fork)
    requires Sound(s)
    ensures Finish(s, i, fork).ws == s.ws
  {
  }

  // ----- every run ---------------------------------------------------------------------------------

  lemma {:induction false} RunSafe(ws: Workspace, taskCap: nat, procCap: nat, es: seq<Event>, name: string)
    requires SelfWaiting(ws, name) && PrefixFree(ws, name) && Fixed(es)
    ensures Inv(Run(Init(ws, taskCap, procCap), es), name)
    ensures Run(Init(ws, taskCap, procCap), es).ws == ws
    decreases |es|
  {
    if es != [] {
      var n := |es| - 1;
      RunSafe(ws, taskCap, procCap, es[..n], name);
      hide Inv, SelfWaiting, PrefixFree, Step;
      StepSafe(Run(Init(ws, taskCap, procCap), es[..n]), es[n], name);
    }
  }

  /** Whenever a task waiting for a self-exclusive name is launched, at submission or from the
      queue, no process of that name is live. */
  lemma LaunchedAlone(ws: Workspace, taskCap: nat, procCap: nat, es: seq<Event>, e: Event, name: string)
    requires SelfWaiting(ws, name) && PrefixFree(ws, name) && Fixed(es) && !e.SetEvent?
    ensures var s := Run(Init(ws, taskCap, procCap), es); LaunchesAlone(s, Step(s, e), name)
  {
    RunSafe(ws, taskCap, procCap, es, name);
    hide Inv, SelfWaiting, PrefixFree, Step, Run;
    StepSafe(Run(Init(ws, taskCap, procCap), es), e, name);
  }

  // ----- the condition is exact -----------------------------------------------------------------------

  /** A run in which two processes of `name` end up live: a task whose name is a proper prefix of
      it finishes and releases the second. */
  function Intruders(other: string, name: string): seq<Event> {
    [SubmitEvent(Some(other), [], Some(1)), SubmitEvent(Some(name), [], Some(2)),
     SubmitEvent(Some(name), [], Some(3)), FinishEvent(0, Some(4))]
  }

  /** A launch straight from an empty queue leaves the queue empty. */
  lemma DirectLaunch(s: Sys, who: string, pid: int)
    requires Sound(s) && Loadable(s.ws, who) && s.tasks.free != [] && s.procs.free != []
    requires !MustWait(s.procs, Define(s.ws, who).value)
    ensures var t := Submit(s, Some(who), [], Some(pid)).0;
            t.ws == s.ws && t.tasks == s.tasks && t.procs == Push(s.procs, Process(who, pid))
  {
    var job := Job(who, Load(s.ws, who, []).value);
    PushWf(s.tasks, job);
    RemoveAfterPush(s.tasks, job);
    hide Wf;
  }

  lemma QueuedBehind(s: Sys, who: string, pid: int)
    requires Sound(s) && Loadable(s.ws, who) && s.tasks.free != []
    requires MustWait(s.procs, Define(s.ws, who).value)
    ensures var t := Submit(s, Some(who), [], Some(pid)).0;
            t.ws == s.ws && t.procs == s.procs
            && t.tasks == Push(s.tasks, Job(who, Load(s.ws, who, []).value))
  {
    var job := Job(who, Load(s.ws, who, []).value);
    PushWf(s.tasks, job);
    hide Wf;
  }

  /** The only waiting task is the one released. */
  lemma {:induction false} FindOnly(items: seq<Option<Job>>, finished: string, k: nat, i: nat)
    requires k < i <= |items| && items[k].Some? && Released(items[k].value.def, finished)
    requires forall j :: 0 <= j < |items| && j != k ==> items[j].None?
    ensures FindReleased(items, finished, i) == Some(k)
    decreases i
  {
    if k < i - 1 {
      FindOnly(items, finished, k, i - 1);
    }
  }

  lemma EmptyStore<T>(capacity: nat)
    requires capacity > 0
    ensures Wf(Empty<T>(capacity)) && Empty<T>(capacity).free != [] && NextSlot(Empty<T>(capacity)) == 0
    ensures forall i :: 0 <= i < capacity ==> Empty<T>(capacity).items[i].None?
  {
    EmptyWf<T>(capacity);
  }

  lemma SecondSlot<T>(capacity: nat, x: T)
    requires capacity > 1
    ensures Wf(Empty<T>(capacity)) && Empty<T>(capacity).free != [] && NextSlot(Empty<T>(capacity)) == 0
    ensures var s := Push(Empty<T>(capacity), x); s.free != [] && NextSlot(s) == 1 && Wf(s)
  {
    EmptyWf<T>(capacity);
    PushWf(Empty<T>(capacity), x);
  }

  lemma FirstTwo(ws: Workspace, taskCap: nat, procCap: nat, other: string, name: string) returns (t: Sys)
    requires taskCap >= 1 && procCap >= 2
    requires Loadable(ws, other) && SelfWaiting(ws, name) && other != name
    ensures var es := Intruders(other, name); t == Run(Init(ws, taskCap, procCap), es[..2])
    ensures Sound(t) && t.ws == ws && t.tasks == Empty(taskCap)
    ensures |t.procs.items| == procCap && t.procs.items[0] == Some(Process(other, 1))
    ensures t.procs.items[1] == Some(Process(name, 2))
  {
    hide Wf, Define, Run, Submit, Finish, Loadable;
    var s := Init(ws, taskCap, procCap);
    var es := Intruders(other, name);
    RunTwo(s, es);
    t := Run(s, es[..2]);
    EmptyStore<Job>(taskCap);
    SecondSlot<Process>(procCap, Process(other, 1));
    NobodyRuns(procCap);
    DirectLaunch(s, other, 1);
    OnlyOther(s.procs, other, name);
    DirectLaunch(Step(s, es[0]), name, 2);
  }

  lemma RunTwo(s: Sys, es: seq<Event>)
    requires Sound(s) && |es| >= 2
    ensures Run(s, es[..2]) == Step(Step(s, es[0]), es[1])
  {
    hide Step, Sound;
    assert es[..2][..1] == es[..1] && es[..1][..0] == [];
    RunLast(s, es[..1]);
    RunLast(s, es[..2]);
  }

  lemma NobodyRuns(procCap: nat)
    ensures forall name :: !Running(Empty<Process>(procCap).items, name)
  {
  }

  lemma OnlyOther(procs: Slots<Process>, other: string, name: string)
    requires procs.free != [] && NextSlot(procs) < |procs.items| && other != name
    requires !Running(procs.items, name)
    ensures !Running(Push(procs, Process(other, 1)).items, name)
  {
  }

  lemma IntrudersMeet(ws: Workspace, taskCap: nat, procCap: nat, other: string, name: string)
    requires taskCap >= 1 && procCap >= 2
    requires Loadable(ws, other) && SelfWaiting(ws, name) && other <= name && other != name
    ensures !AtMostOne(Run(Init(ws, taskCap, procCap), Intruders(other, name)).procs.items, name)
  {
    hide Run, Wf, Submit, Finish, Define, AtMostOne, Push;
    var s := Init(ws, taskCap, procCap);
    var es := Intruders(other, name);
    var t := FirstTwo(ws, taskCap, procCap, other, name);
    EmptyStore<Job>(taskCap);
    assert es[..3][..2] == es[..2] && es[..4] == es && es[..4][..3] == es[..3];
    var u := Run(s, es[..3]);
    assert u == Step(t, es[2]) && Run(s, es) == Step(u, es[3]) by {
      RunLast(s, es[..3]);
      RunLast(s, es);
    }
    assert Named(t.procs.items, 1, name);
    QueuedBehind(t, name, 3);
    QueuedFirst(taskCap, Job(name, Load(ws, name, []).value));
    LastOne(u, other, name);
  }

  lemma QueuedFirst(taskCap: nat, job: Job)
    requires taskCap >= 1
    ensures var empty := Empty<Job>(taskCap); empty.free != [] && NextSlot(empty) == 0 && |empty.items| == taskCap
    ensures Push(Empty<Job>(taskCap), job).items[0] == Some(job)
    ensures forall i :: 1 <= i < taskCap ==> Push(Empty<Job>(taskCap), job).items[i].None?
  {
    EmptyStore<Job>(taskCap);
  }

  lemma RunLast(s: Sys, es: seq<Event>)
    requires Sound(s) && es != []
    ensures Run(s, es) == Step(Run(s, es[..|es| - 1]), es[|es| - 1])
  {
  }

  lemma LastOne(u: Sys, other: string, name: string)
    requires Sound(u) && other <= name && other != name
    requires |u.tasks.items| >= 1 && u.tasks.items[0].Some? && u.tasks.items[0].value.name == name
    requires u.tasks.items[0].value.def.wait == Some(name)
    requires forall i :: 1 <= i < |u.tasks.items| ==> u.tasks.items[i].None?
    requires |u.procs.items| >= 2 && u.procs.items[0] == Some(Process(other, 1))
    requires Named(u.procs.items, 1, name)
    ensures !AtMostOne(Step(u, FinishEvent(0, Some(4))).procs.items, name)
  {
    var v := Reaped(u, 0);
    RemoveWf(u.procs, 0);
    PushAfterRemove(u.procs, 0, Process(name, 4));
    FindOnly(v.tasks.items, other, 0, |v.tasks.items|);
    hide Wf, FindReleased;
    var w := Finish(u, 0, Some(4));
    assert Named(w.procs.items, 0, name) && Named(w.procs.items, 1, name);
  }

  /** Without a task slot nothing ever runs. */
  lemma {:induction false} NoSlotNoProcess(ws: Workspace, procCap: nat, es: seq<Event>)
    ensures forall i :: !Live(Run(Init(ws, 0, procCap), es).procs, i)
  {
    if es != [] {
      NoSlotNoProcess(ws, procCap, es[..|es| - 1]);
    }
  }

  lemma NoRoomForTwo(ws: Workspace, taskCap: nat, procCap: nat, es: seq<Event>, name: string)
    requires taskCap == 0 || procCap <= 1
    ensures AtMostOne(Run(Init(ws, taskCap, procCap), es).procs.items, name)
  {
    hide Run, Wf;
    if taskCap == 0 {
      NoSlotNoProcess(ws, procCap, es);
      var procs := Run(Init(ws, 0, procCap), es).procs;
      assert forall i :: Named(procs.items, i, name) ==> Live(procs, i);
    }
  }

  /** A task that waits for its own name runs at most once in every run with this workspace
      exactly when no other task's name is a prefix of its name, or the stores are too small for
      one waiting task and two processes. */
  lemma RunsAloneIff(ws: Workspace, taskCap: nat, procCap: nat, name: string)
    requires SelfWaiting(ws, name)
    ensures (forall es :: Fixed(es) ==> AtMostOne(Run(Init(ws, taskCap, procCap), es).procs.items, name))
            <==> PrefixFree(ws, name) || taskCap == 0 || procCap <= 1
  {
    hide Run, AtMostOne, Init;
    if PrefixFree(ws, name) || taskCap == 0 || procCap <= 1 {
      forall es | Fixed(es)
        ensures AtMostOne(Run(Init(ws, taskCap, procCap), es).procs.items, name)
      {
        if PrefixFree(ws, name) {
          RunSafe(ws, taskCap, procCap, es, name);
        } else {
          NoRoomForTwo(ws, taskCap, procCap, es, name);
        }
      }
    } else {
      var other: string :| Loadable(ws, other) && other <= name && other != name;
      IntrudersMeet(ws, taskCap, procCap, other, name);
      assert Fixed(Intruders(other, name));
    }
  }
}
