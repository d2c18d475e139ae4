/** What holds in every run of the scheduler: no task is lost or launched twice. */
module SchedulerSafety {
  import opened CBytes
  import opened SlotStore
  import opened TaskRecord
  import opened Scheduler

  // ----- conservation ---------------------------------------------------------------------

  ghost function JobsOf(ls: seq<Launch>): multiset<Job> {
    if ls == [] then multiset{} else JobsOf(ls[..|ls| - 1]) + multiset{ls[|ls| - 1].job}
  }

  ghost function ProcessesOf(ls: seq<Launch>): multiset<Process> {
    if ls == [] then multiset{}
    else ProcessesOf(ls[..|ls| - 1]) + multiset{Process(ls[|ls| - 1].job.name, ls[|ls| - 1].pid)}
  }

  /** Every accepted task is waiting or has been launched, once; every launched process is live
      or has been reaped, once. */
  ghost predicate Conserved(s: Sys) {
    && multiset(s.log.accepted) == Bag(s.tasks.items) + JobsOf(s.log.launched)
    && ProcessesOf(s.log.launched) == Bag(s.procs.items) + multiset(s.log.reaped)
  }

  lemma LaunchedOnce(ls: seq<Launch>, l: Launch)
    ensures JobsOf(ls + [l]) == JobsOf(ls) + multiset{l.job}
    ensures ProcessesOf(ls + [l]) == ProcessesOf(ls) + multiset{Process(l.job.name, l.pid)}
  {
    assert (ls + [l])[..|ls|] == ls;
  }

  lemma AcceptKeeps(s: Sys, job: Job)
    requires Sound(s) && s.tasks.free != [] && Conserved(s)
    ensures Conserved(Accepted(s, job))
  {
    PushBag(s.tasks, job);
    hide Bag, JobsOf, ProcessesOf;
    assert multiset(s.log.accepted + [job]) == multiset(s.log.accepted) + multiset{job};
    Regroup(Bag(s.tasks.items), multiset{job}, JobsOf(s.log.launched));
  }

  /** Moving a waiting task to the process store. */
  lemma LaunchKeeps(s: Sys, j: nat, pid: int)
    requires Sound(s) && s.procs.free != [] && Live(s.tasks, j) && Conserved(s)
    ensures Conserved(Launched(s, s.tasks.items[j].value, pid).(tasks := Remove(s.tasks, j)))
  {
    var job := s.tasks.items[j].value;
    var p := Process(job.name, pid);
    RemoveBag(s.tasks, j);
    PushBag(s.procs, p);
    LaunchedOnce(s.log.launched, Launch(job, pid));
    hide Bag, JobsOf, ProcessesOf, Sound;
    Regroup(Bag(Remove(s.tasks, j).items), multiset{job}, JobsOf(s.log.launched));
    Regroup(Bag(s.procs.items), multiset{p}, multiset(s.log.reaped));
  }

  lemma Regroup<T>(a: multiset<T>, x: multiset<T>, b: multiset<T>)
    ensures (a + x) + b == a + (b + x)
    ensures (a + b) + x == (a + x) + b
  {
  }

  lemma ReapKeeps(s: Sys, i: nat)
    requires Live(s.procs, i) && Conserved(s)
    ensures Conserved(Reaped(s, i))
  {
    var p := s.procs.items[i].value;
    RemoveBag(s.procs, i);
    hide Bag, JobsOf, ProcessesOf;
    assert multiset(s.log.reaped + [p]) == multiset(s.log.reaped) + multiset{p};
    Regroup(Bag(Remove(s.procs, i).items), multiset{p}, multiset(s.log.reaped));
  }

  lemma CheckQueueKeeps(s: Sys, finished: string, fork: Fork)
    requires Sound(s) && Conserved(s)
    ensures Conserved(CheckQueue(s, finished, fork))
  {
    var j := FindReleased(s.tasks.items, finished, |s.tasks.items|);
    if j.Some? && CanLaunch(s, fork) {
      hide Conserved, Sound;
      LaunchKeeps(s, j.value, fork.value);
    }
  }

  lemma DispatchKeeps(s: Sys, slot: nat, fork: Fork)
    requires Live(s.tasks, slot) && Sound(s) && Conserved(s)
    ensures Conserved(Dispatch(s, slot, fork).0)
  {
    hide Conserved, Wf, MustWait, Launched, Remove;
    if CanLaunch(s, fork) {
      LaunchKeeps(s, slot, fork.value);
    }
  }

  lemma SubmitKeeps(s: Sys, name: Option<string>, envs: seq<string>, fork: Fork)
    requires Sound(s) && Conserved(s)
    ensures Conserved(Submit(s, name, envs, fork).0)
  {
    if Acceptable(s, name, envs) {
      var job := Job(name.value, Load(s.ws, name.value, envs).value);
      hide Conserved, Load, Wf, Dispatch;
      AcceptKeeps(s, job);
      PushWf(s.tasks, job);
      DispatchKeeps(Accepted(s, job), NextSlot(s.tasks), fork);
    }
  }

  lemma StepKeeps(s: Sys, e: Event)
    requires Sound(s) && Conserved(s)
    ensures Conserved(Step(s, e))
  {
    match e {
      case SubmitEvent(name, envs, fork) =>
        hide Conserved, Submit;
        SubmitKeeps(s, name, envs, fork);
      case FinishEvent(slot, fork) =>
        hide Conserved, CheckQueue;
        if Live(s.procs, slot) {
          ReapKeeps(s, slot);
          RemoveWf(s.procs, slot);
          CheckQueueKeeps(Reaped(s, slot), s.procs.items[slot].value.name, fork);
        }
      case SetEvent(_) =>
    }
  }

  /** In every run: accepted tasks = waiting + launched, launched processes = live + reaped, as
      multisets - so no task is lost and none is launched twice. */
  lemma {:induction false} Conservation(ws: Workspace, taskCap: nat, procCap: nat, es: seq<Event>)
    ensures Conserved(Run(Init(ws, taskCap, procCap), es))
    decreases |es|
  {
    if es == [] {
      EmptyWf<Job>(taskCap);
      EmptyWf<Process>(procCap);
    } else {
      Conservation(ws, taskCap, procCap, es[..|es| - 1]);
      StepKeeps(Run(Init(ws, taskCap, procCap), es[..|es| - 1]), es[|es| - 1]);
    }
  }
}
