/** When every task waits for its own name, names do not prefix each other, and the process
    store has room for all of them: no launch is ever refused, every waiting task has a live
    process to wait for, and each completion brings the system one step closer to rest. */
module SchedulerDrain {
  import opened CBytes
  import opened SlotStore
  import opened TaskRecord
  import opened Scheduler
  import opened SchedulerExclusion

  /** The workspace's task names are among `names`; each task waits for itself, and no name is
      a prefix of another. */
  ghost predicate Orderly(ws: Workspace, names: set<string>) {
    forall n: string :: Loadable(ws, n) ==> n in names && SelfWaiting(ws, n) && PrefixFree(ws, n)
  }

  /** Forking always succeeds and the workspace stays the same. */
  predicate Smooth(e: Event) {
    !e.SetEvent? && (e.SubmitEvent? ==> e.fork.Some?) && (e.FinishEvent? ==> e.fork.Some?)
  }

  ghost predicate AllSmooth(es: seq<Event>) {
    forall i :: 0 <= i < |es| ==> Smooth(es[i])
  }

  ghost predicate Distinct(items: seq<Option<Process>>) {
    forall i, j :: 0 <= i < j < |items| && items[i].Some? && items[j].Some? ==>
      items[i].value.name != items[j].value.name
  }

  /** Live processes have different names of the workspace, and each waiting task waits for the
      live process of its own name. */
  ghost predicate Calm(s: Sys) {
    && (forall i :: Live(s.procs, i) ==> Loadable(s.ws, s.procs.items[i].value.name))
    && Distinct(s.procs.items)
    && (forall i :: Live(s.tasks, i) ==>
          FromWs(s.ws, s.tasks.items[i].value) && Running(s.procs.items, s.tasks.items[i].value.name))
  }

  function NamesOf(items: seq<Option<Process>>): set<string> {
    set i | 0 <= i < |items| && items[i].Some? :: items[i].value.name
  }

  /** Waiting tasks and live processes together. */
  ghost function Pending(s: Sys): nat {
    |Bag(s.tasks.items)| + |Bag(s.procs.items)|
  }

  // ----- there is always room ---------------------------------------------------------------

  lemma {:induction false} DistinctCount(items: seq<Option<Process>>)
    requires Distinct(items)
    ensures |NamesOf(items)| == |Bag(items)|
  {
    if items == [] {
      assert NamesOf(items) == {};
    } else {
      var n := |items| - 1;
      var front := items[..n];
      assert items == front + [items[n]];
      BagAppend(front, items[n]);
      DistinctCount(front);
      NamesAppend(front, items[n]);
      hide Bag, NamesOf;
      if items[n].Some? {
        assert items[n].value.name !in NamesOf(front) by {
          NotAmong(items, n);
        }
      }
    }
  }

  lemma NamesAppend(items: seq<Option<Process>>, x: Option<Process>)
    ensures NamesOf(items + [x]) == NamesOf(items) + (if x.Some? then {x.value.name} else {})
  {
    var all := items + [x];
    forall name | name in NamesOf(items) ensures name in NamesOf(all) {
      var i :| 0 <= i < |items| && items[i].Some? && items[i].value.name == name;
      assert all[i].Some? && all[i].value.name == name;
    }
    if x.Some? {
      assert all[|items|].Some? && all[|items|].value.name == x.value.name;
    }
  }

  lemma NotAmong(items: seq<Option<Process>>, n: nat)
    requires Distinct(items) && n < |items| && items[n].Some?
    ensures items[n].value.name !in NamesOf(items[..n])
  {
  }

  /** While some name of the workspace is not running, a process slot is free. */
  lemma RoomToLaunch(s: Sys, names: set<string>, name: string)
    requires Sound(s) && Calm(s) && Orderly(s.ws, names) && |names| <= |s.procs.items|
    requires Loadable(s.ws, name) && !Running(s.procs.items, name)
    ensures s.procs.free != []
  {
    var live := NamesOf(s.procs.items);
    forall n | n in live ensures n in names - {name} {
      var i :| 0 <= i < |s.procs.items| && s.procs.items[i].Some? && s.procs.items[i].value.name == n;
      assert Live(s.procs, i);
      assert Loadable(s.ws, n);
    }
    assert name in names;
    SubsetSize(live, names - {name});
    DistinctCount(s.procs.items);
    UsedPlusFree(s.procs);
  }

  lemma SubsetSize<T>(a: set<T>, b: set<T>)
    requires a <= b
    ensures |a| <= |b|
  {
    if a != {} {
      var x :| x in a;
      SubsetSize(a - {x}, b - {x});
    }
  }

  // ----- one launch -------------------------------------------------------------------------------

  /** `Calm` except that task slot `j` need not have its process yet. */
  ghost predicate CalmBut(s: Sys, j: nat) {
    && (forall i :: Live(s.procs, i) ==> Loadable(s.ws, s.procs.items[i].value.name))
    && Distinct(s.procs.items)
    && (forall i :: Live(s.tasks, i) ==> FromWs(s.ws, s.tasks.items[i].value))
    && (forall i :: Live(s.tasks, i) && i != j ==>
          Running(s.procs.items, s.tasks.items[i].value.name)
          || (Live(s.tasks, j) && s.tasks.items[i].value.name == s.tasks.items[j].value.name))
  }

  /** Launching the one task whose name is not running makes the rest calm. */
  lemma LaunchCalms(s: Sys, j: nat, pid: int)
    requires Sound(s) && s.procs.free != [] && Live(s.tasks, j) && CalmBut(s, j)
    requires !Running(s.procs.items, s.tasks.items[j].value.name)
    ensures var t := Launched(s, s.tasks.items[j].value, pid).(tasks := Remove(s.tasks, j));
            Calm(t) && Pending(t) == Pending(s)
  {
    LaunchPending(s, j, pid);
    var job := s.tasks.items[j].value;
    var p := Process(job.name, pid);
    var t := Launched(s, job, pid).(tasks := Remove(s.tasks, j));
    var k := NextSlot(s.procs);
    PushWf(s.procs, p);
    assert FromWs(s.ws, job);
    hide Wf, Loadable, Define, Pending;
    assert t.procs.items == s.procs.items[k := Some(p)];
    RunningAfterPush(s.procs.items, k, p);
    hide Running, Distinct;
    assert forall i :: Live(t.procs, i) ==> i == k || (Live(s.procs, i) && t.procs.items[i] == s.procs.items[i]);
    assert forall i :: Live(t.tasks, i) ==> i != j && Live(s.tasks, i) && t.tasks.items[i] == s.tasks.items[i];
  }

  lemma LaunchPending(s: Sys, j: nat, pid: int)
    requires Sound(s) && s.procs.free != [] && Live(s.tasks, j)
    ensures Pending(Launched(s, s.tasks.items[j].value, pid).(tasks := Remove(s.tasks, j))) == Pending(s)
  {
    PushBag(s.procs, Process(s.tasks.items[j].value.name, pid));
    RemoveBag(s.tasks, j);
    hide Wf, Bag;
  }

  lemma RunningAfterPush(items: seq<Option<Process>>, k: nat, p: Process)
    requires k < |items| && items[k].None?
    ensures forall n :: Running(items[k := Some(p)], n) <==> Running(items, n) || n == p.name
    ensures Distinct(items) && !Running(items, p.name) ==> Distinct(items[k := Some(p)])
  {
    var next := items[k := Some(p)];
    forall n ensures Running(next, n) <==> Running(items, n) || n == p.name {
      if Running(items, n) {
        var i :| 0 <= i < |items| && items[i].Some? && items[i].value.name == n;
        assert next[i].Some? && next[i].value.name == n;
      }
      assert next[k].Some? && next[k].value.name == p.name;
    }
  }

  // ----- one step -----------------------------------------------------------------------------------

  /** A submission is never refused for lack of room. */
  lemma SubmitCalm(s: Sys, names: set<string>, who: Option<string>, envs: seq<string>, pid: int)
    requires Sound(s) && Calm(s) && Orderly(s.ws, names) && |names| <= |s.procs.items|
    ensures Calm(Submit(s, who, envs, Some(pid)).0)
    ensures Submit(s, who, envs, Some(pid)).1 != LaunchFailed
  {
    if Acceptable(s, who, envs) {
      var job := Job(who.value, Load(s.ws, who.value, envs).value);
      var slot := NextSlot(s.tasks);
      var kept := Accepted(s, job);
      PushWf(s.tasks, job);
      assert Loadable(s.ws, job.name) && SelfWaiting(s.ws, job.name) && FromWs(s.ws, job);
      AcceptCalm(s, job);
      hide Wf, Load, Orderly, Calm, CalmBut, Running, Define;
      if !MustWait(s.procs, job.def) {
        RoomToLaunch(s, names, job.name);
        LaunchCalms(kept, slot, pid);
      }
    }
  }

  lemma AcceptCalm(s: Sys, job: Job)
    requires Sound(s) && Calm(s) && s.tasks.free != [] && FromWs(s.ws, job)
    ensures CalmBut(Accepted(s, job), NextSlot(s.tasks))
    ensures Running(s.procs.items, job.name) ==> Calm(Accepted(s, job))
  {
    var t := Accepted(s, job);
    hide Wf, Loadable, Define, Running;
    assert forall i :: Live(t.tasks, i) ==>
      i == NextSlot(s.tasks) || (Live(s.tasks, i) && t.tasks.items[i] == s.tasks.items[i]);
  }

  /** A completion takes away exactly one of the pending tasks and processes. */
  lemma FinishCalm(s: Sys, names: set<string>, i: nat, pid: int)
    requires Sound(s) && Calm(s) && Orderly(s.ws, names) && Live(s.procs, i)
    ensures Calm(Finish(s, i, Some(pid)))
    ensures Pending(Finish(s, i, Some(pid))) == Pending(s) - 1
  {
    var finished := s.procs.items[i].value.name;
    var t := Reaped(s, i);
    assert Loadable(s.ws, finished);
    RemoveWf(s.procs, i);
    ReapPending(s, i);
    ReapCalm(s, i);
    hide Wf, Loadable, Orderly, Calm, Running, Distinct, Pending, CheckQueue;
    ReleaseCalm(t, names, finished, pid);
  }

  lemma ReapPending(s: Sys, i: nat)
    requires Live(s.procs, i)
    ensures Pending(Reaped(s, i)) == Pending(s) - 1
  {
    RemoveBag(s.procs, i);
    hide Bag;
  }

  /** Tasks of no other name than `finished` lack a process; the queue launches one of them, if
      there is any. */
  ghost predicate Awaiting(s: Sys, finished: string) {
    && !Running(s.procs.items, finished)
    && (forall k :: Live(s.procs, k) ==> Loadable(s.ws, s.procs.items[k].value.name))
    && Distinct(s.procs.items)
    && (forall k :: Live(s.tasks, k) ==> FromWs(s.ws, s.tasks.items[k].value))
    && (forall k :: Live(s.tasks, k) ==>
          Running(s.procs.items, s.tasks.items[k].value.name) || s.tasks.items[k].value.name == finished)
  }

  lemma ReleaseCalm(s: Sys, names: set<string>, finished: string, pid: int)
    requires Sound(s) && Awaiting(s, finished) && Orderly(s.ws, names) && Loadable(s.ws, finished)
    requires s.procs.free != []
    ensures Calm(CheckQueue(s, finished, Some(pid)))
    ensures Pending(CheckQueue(s, finished, Some(pid))) == Pending(s)
  {
    var j := FindReleased(s.tasks.items, finished, |s.tasks.items|);
    ReleasedByName(s, names, finished);
    hide Wf, Orderly, Running, Pending, Distinct, Loadable, FromWs;
    if j.Some? {
      assert Live(s.tasks, j.value) && s.tasks.items[j.value].value.name == finished;
      LaunchCalms(s, j.value, pid);
    } else {
      assert forall k :: Live(s.tasks, k) ==> s.tasks.items[k].value.name != finished;
    }
  }

  /** Only tasks of the finished name are released by it. */
  lemma ReleasedByName(s: Sys, names: set<string>, finished: string)
    requires Orderly(s.ws, names) && Loadable(s.ws, finished)
    requires forall k :: Live(s.tasks, k) ==> FromWs(s.ws, s.tasks.items[k].value)
    ensures forall k :: Live(s.tasks, k) ==>
              (Released(s.tasks.items[k].value.def, finished) <==> s.tasks.items[k].value.name == finished)
  {
    hide Define;
    forall k | Live(s.tasks, k)
      ensures Released(s.tasks.items[k].value.def, finished) <==> s.tasks.items[k].value.name == finished
    {
      var job := s.tasks.items[k].value;
      assert FromWs(s.ws, job) && SelfWaiting(s.ws, job.name) && PrefixFree(s.ws, job.name);
      assert job.def.wait == Some(job.name);
    }
  }

  /** After a reap, only tasks of the reaped name can lack a process. */
  lemma ReapCalm(s: Sys, i: nat)
    requires Calm(s) && Live(s.procs, i)
    ensures Awaiting(Reaped(s, i), s.procs.items[i].value.name) && Reaped(s, i).procs.free != []
  {
    hide Loadable, Define, FromWs;
    var t := Reaped(s, i);
    forall n | n != s.procs.items[i].value.name && Running(s.procs.items, n)
      ensures Running(t.procs.items, n)
    {
      var k :| 0 <= k < |s.procs.items| && s.procs.items[k].Some? && s.procs.items[k].value.name == n;
      assert t.procs.items[k].Some? && t.procs.items[k].value.name == n;
    }
    assert forall k :: Live(t.procs, k) ==> Live(s.procs, k) && k != i && t.procs.items[k] == s.procs.items[k];
  }

  // ----- every run -------------------------------------------------------------------------------------

  lemma StepCalm(s: Sys, names: set<string>, e: Event)
    requires Sound(s) && Calm(s) && Orderly(s.ws, names) && |names| <= |s.procs.items| && Smooth(e)
    ensures Calm(Step(s, e)) && Step(s, e).ws == s.ws
  {
    hide Calm, Orderly, Submit, Finish, Sound;
    if e.SubmitEvent? {
      SubmitCalm(s, names, e.name, e.envs, e.fork.value);
      SubmitWs(s, e.name, e.envs, e.fork);
    } else {
      FinishWs(s, e.slot, e.fork);
      if Live(s.procs, e.slot) {
        FinishCalm(s, names, e.slot, e.fork.value);
      } else {
        FinishNothing(s, e.slot, e.fork);
      }
    }
  }

  lemma FinishNothing(s: Sys, i: nat, fork: Fork)
    requires Sound(s) && !Live(s.procs, i)
    ensures Finish(s, i, fork) == s
  {
  }

  lemma {:induction false} RunCalm(s: Sys, names: set<string>, es: seq<Event>)
    requires Sound(s) && Calm(s) && Orderly(s.ws, names) && |names| <= |s.procs.items| && AllSmooth(es)
    ensures Calm(Run(s, es)) && Run(s, es).ws == s.ws
    decreases |es|
  {
    if es != [] {
      var n := |es| - 1;
      RunCalm(s, names, es[..n]);
      assert Smooth(es[n]);
      hide Calm, Orderly, Step, Smooth, Sound;
      StepCalm(Run(s, es[..n]), names, es[n]);
    }
  }

  lemma InitCalm(ws: Workspace, taskCap: nat, procCap: nat)
    ensures Calm(Init(ws, taskCap, procCap))
  {
  }

  /** In an orderly workspace no submission ever fails to launch, and every waiting task has a
      live process of the name it waits for. */
  lemma NeverRefused(ws: Workspace, names: set<string>, taskCap: nat, procCap: nat, es: seq<Event>,
                     who: Option<string>, envs: seq<string>, pid: int)
    requires Orderly(ws, names) && |names| <= procCap && AllSmooth(es)
    ensures var s := Run(Init(ws, taskCap, procCap), es);
            && Submit(s, who, envs, Some(pid)).1 != LaunchFailed
            && forall i :: Live(s.tasks, i) ==>
                 s.tasks.items[i].value.def.wait == Some(s.tasks.items[i].value.name)
                 && Running(s.procs.items, s.tasks.items[i].value.name)
  {
    InitCalm(ws, taskCap, procCap);
    RunCalm(Init(ws, taskCap, procCap), names, es);
    var s := Run(Init(ws, taskCap, procCap), es);
    hide Run;
    SubmitCalm(s, names, who, envs, pid);
    forall i | Live(s.tasks, i) ensures s.tasks.items[i].value.def.wait == Some(s.tasks.items[i].value.name) {
      assert FromWs(s.ws, s.tasks.items[i].value);
    }
  }

  /** Every completion in the list is of a process that is live by then. */
  ghost predicate Completions(s: Sys, es: seq<Event>)
    requires Sound(s)
  {
    if es == [] then true
    else
      var n := |es| - 1;
      && Completions(s, es[..n])
      && es[n].FinishEvent? && es[n].fork.Some? && Live(Run(s, es[..n]).procs, es[n].slot)
  }

  /** Once submissions stop, n completions leave n fewer waiting tasks and live processes; and
      as long as anything is left, some process is live to complete - so the system comes to
      rest after exactly as many completions as there were tasks and processes. */
  lemma {:induction false} Drains(ws: Workspace, names: set<string>, taskCap: nat, procCap: nat,
                                  before: seq<Event>, es: seq<Event>)
    requires Orderly(ws, names) && |names| <= procCap && AllSmooth(before)
    requires Completions(Run(Init(ws, taskCap, procCap), before), es)
    ensures var s := Run(Init(ws, taskCap, procCap), before);
            var t := Run(s, es);
            && Pending(t) + |es| == Pending(s)
            && (Pending(t) > 0 ==> exists i :: Live(t.procs, i))
            && (Pending(t) == 0 <==> forall i :: !Live(t.procs, i) && !Live(t.tasks, i))
  {
    InitCalm(ws, taskCap, procCap);
    RunCalm(Init(ws, taskCap, procCap), names, before);
    CompletionsCount(Run(Init(ws, taskCap, procCap), before), names, es);
    var t := Run(Run(Init(ws, taskCap, procCap), before), es);
    hide Run, Calm;
    AtRest(t);
  }

  lemma {:induction false} CompletionsCount(s: Sys, names: set<string>, es: seq<Event>)
    requires Sound(s) && Calm(s) && Orderly(s.ws, names) && |names| <= |s.procs.items| && Completions(s, es)
    ensures Pending(Run(s, es)) + |es| == Pending(s)
    ensures Calm(Run(s, es)) && Run(s, es).ws == s.ws
    decreases |es|
  {
    if es != [] {
      var n := |es| - 1;
      CompletionsCount(s, names, es[..n]);
      RunLast(s, es);
      hide Calm, Orderly, Finish, Sound, Pending, Run, Completions;
      var t := Run(s, es[..n]);
      FinishCalm(t, names, es[n].slot, es[n].fork.value);
      FinishWs(t, es[n].slot, es[n].fork);
    }
  }

  /** There is always a way to come to rest, and it takes exactly as many completions as there
      are waiting tasks and live processes. */
  lemma ComesToRest(s: Sys, names: set<string>) returns (es: seq<Event>)
    requires Sound(s) && Calm(s) && Orderly(s.ws, names) && |names| <= |s.procs.items|
    ensures Completions(s, es) && |es| == Pending(s) && Pending(Run(s, es)) == 0
  {
    es := [];
    while Pending(Run(s, es)) > 0
      invariant Completions(s, es) && Pending(Run(s, es)) + |es| == Pending(s) && Calm(Run(s, es))
      decreases Pending(Run(s, es))
    {
      hide Calm, Pending, Orderly, Sound, Run;
      AtRest(Run(s, es));
      var i :| Live(Run(s, es).procs, i);
      OneMore(s, es, i);
      es := es + [FinishEvent(i, Some(1))];
      CompletionsCount(s, names, es);
    }
  }

  lemma OneMore(s: Sys, es: seq<Event>, i: nat)
    requires Sound(s) && Completions(s, es) && Live(Run(s, es).procs, i)
    ensures Completions(s, es + [FinishEvent(i, Some(1))])
  {
    hide Run, Sound;
    assert (es + [FinishEvent(i, Some(1))])[..|es|] == es;
  }

  lemma AtRest(t: Sys)
    requires Calm(t)
    ensures Pending(t) > 0 ==> exists i :: Live(t.procs, i)
    ensures Pending(t) == 0 <==> forall i :: !Live(t.procs, i) && !Live(t.tasks, i)
  {
    CountZero(t.procs.items);
    CountZero(t.tasks.items);
    if i :| Live(t.tasks, i) {
      assert Running(t.procs.items, t.tasks.items[i].value.name);
      var k :| 0 <= k < |t.procs.items| && t.procs.items[k].Some?;
      assert Live(t.procs, k);
    }
  }

  lemma CountZero<T>(items: seq<Option<T>>)
    ensures |Bag(items)| == 0 <==> forall i :: 0 <= i < |items| ==> items[i].None?
  {
    if |Bag(items)| == 0 {
      forall i | 0 <= i < |items| ensures items[i].None? {
        if items[i].Some? {
          InBag(items, items[i].value);
        }
      }
    } else {
      var x :| x in Bag(items);
      InBag(items, x);
    }
  }
}
