/** What one event does to the stores, told slot by slot: which task is launched when a process has
    gone, what becomes of a submitted task, and what a request changes and is answered. */
module SchedulerOutcomes {
  import opened CBytes
  import opened SlotStore
  import opened TaskRecord
  import opened Scheduler
  import opened SchedulerSweeps
  import opened TokenCodec

  // ----- a process has gone ---------------------------------------------------------------------

  /** The slot holds a task that waits for nothing, or for a name the finished one is the beginning
      of. */
  predicate Freed(slot: Option<Job>, finished: string) {
    && slot.Some?
    && var wait := slot.value.def.wait;
       wait.None? || (|finished| <= |wait.value| && wait.value[..|finished|] == finished)
  }

  predicate HighestFreed(items: seq<Option<Job>>, finished: string, k: int) {
    && 0 <= k < |items| && Freed(items[k], finished)
    && forall j :: k < j < |items| ==> !Freed(items[j], finished)
  }

  /** In slot `i` of the processes `p` is replaced by the task of slot `k`, which is launched. */
  ghost predicate Replaced(s: Sys, t: Sys, i: nat, k: int, pid: int)
    requires i < |s.procs.items| && 0 <= k < |s.tasks.items| && s.tasks.items[k].Some?
  {
    var job := s.tasks.items[k].value;
    && t.tasks.items == s.tasks.items[k := None]
    && t.procs.items == s.procs.items[i := Some(Process(job.name, pid))]
    && t.log.launched == s.log.launched + [Launch(job, pid)]
  }

  /** A process found finished leaves its slot to the freed task of the highest task slot, if there
      is one and forking succeeds; else its slot is empty and the tasks are as before. Nothing else
      changes. */
  lemma FinishOutcome(s: Sys, i: nat, fork: Fork)
    requires Sound(s) && i < |s.procs.items| && s.procs.items[i].Some?
    ensures var t, p := Step(s, FinishEvent(i, fork)), s.procs.items[i].value;
            && t.ws == s.ws && t.log.accepted == s.log.accepted && t.log.reaped == s.log.reaped + [p]
            && if fork.Some? && exists j :: 0 <= j < |s.tasks.items| && Freed(s.tasks.items[j], p.name) then
                 exists k :: HighestFreed(s.tasks.items, p.name, k) && Replaced(s, t, i, k, fork.value)
               else
                 && t.tasks == s.tasks && t.procs.items == s.procs.items[i := None]
                 && t.log.launched == s.log.launched
  {
    hide Wf, FindReleased, Submit, Freed, Released;
    var p, u := s.procs.items[i].value, Reaped(s, i);
    RemoveWf(s.procs, i);
    FreedAgrees(s.tasks.items, p.name);
    var j := FindReleased(u.tasks.items, p.name, |u.tasks.items|);
    if j.Some? && fork.Some? {
      PushAfterRemove(s.procs, i, Process(s.tasks.items[j.value].value.name, fork.value));
      assert HighestFreed(s.tasks.items, p.name, j.value) && Replaced(s, Step(s, FinishEvent(i, fork)), i, j.value, fork.value);
    }
  }

  /** The search from the highest slot down finds the highest freed task. */
  lemma FreedAgrees(items: seq<Option<Job>>, finished: string)
    ensures var j := FindReleased(items, finished, |items|);
            if j.Some? then HighestFreed(items, finished, j.value)
            else forall k :: 0 <= k < |items| ==> !Freed(items[k], finished)
  {
    hide FindReleased;
    forall k | 0 <= k < |items|
      ensures Freed(items[k], finished) <==> items[k].Some? && Released(items[k].value.def, finished)
    {
    }
  }

  /** An empty slot cannot finish. */
  lemma NothingFinishes(s: Sys, i: nat, fork: Fork)
    requires Sound(s) && (i < |s.procs.items| ==> s.procs.items[i].None?)
    ensures Step(s, FinishEvent(i, fork)) == s
  {
  }

  // ----- a task is submitted --------------------------------------------------------------------

  predicate HasRoom<T>(items: seq<Option<T>>) {
    exists i :: 0 <= i < |items| && items[i].None?
  }

  /** Some empty slot now holds `x`. */
  ghost predicate Placed<T>(items: seq<Option<T>>, after: seq<Option<T>>, x: T) {
    exists i :: 0 <= i < |items| && items[i].None? && after == items[i := Some(x)]
  }

  /** What a submission under that name with those variables does: it is answered "not found",
      leaving the server as it was, when there is no name, the workspace has no command for it, or no
      task slot is free. Otherwise the task is accepted with the workspace's variables first and the
      client's after them. It is left waiting when a process of the name it waits for is live; else
      it is launched at once if a process slot is free and the fork succeeds, and stays in the task
      store if not. */
  ghost predicate Served(s: Sys, name: Option<string>, envs: seq<string>, fork: Fork, t: Sys, reply: Reply) {
    if name.None? || Define(s.ws, name.value).None? || !HasRoom(s.tasks.items) then reply == NotFound && t == s
    else
      var def := Define(s.ws, name.value).value;
      var job := Job(name.value, def.(vars := def.vars + envs));
      var awaited := def.wait.Some? &&
        exists i :: 0 <= i < |s.procs.items| && s.procs.items[i].Some? && s.procs.items[i].value.name == def.wait.value;
      && t.ws == s.ws && t.log.accepted == s.log.accepted + [job] && t.log.reaped == s.log.reaped
      && if !awaited && HasRoom(s.procs.items) && fork.Some? then
           && reply == Started && t.tasks == s.tasks
           && t.log.launched == s.log.launched + [Launch(job, fork.value)]
           && Placed(s.procs.items, t.procs.items, Process(job.name, fork.value))
         else
           && reply == (if awaited then Queued else LaunchFailed)
           && t.procs == s.procs && t.log.launched == s.log.launched
           && Placed(s.tasks.items, t.tasks.items, job)
  }

  lemma RoomIsFree<T>(s: Slots<T>)
    requires Wf(s)
    ensures HasRoom(s.items) <==> s.free != []
  {
    if s.free != [] {
      assert s.items[s.free[0]].None?;
    }
  }

  lemma PushPlaces<T>(s: Slots<T>, x: T)
    requires Wf(s) && s.free != []
    ensures Placed(s.items, Push(s, x).items, x)
  {
    PushWf(s, x);
    assert s.items[NextSlot(s)].None?;
  }

  lemma SubmitServed(s: Sys, name: Option<string>, envs: seq<string>, fork: Fork)
    requires Sound(s)
    ensures Served(s, name, envs, fork, Step(s, SubmitEvent(name, envs, fork)), Submit(s, name, envs, fork).1)
  {
    hide Wf, Define, Placed, HasRoom;
    RoomIsFree(s.tasks);
    RoomIsFree(s.procs);
    if Acceptable(s, name, envs) {
      var job := Job(name.value, Load(s.ws, name.value, envs).value);
      PushWf(s.tasks, job);
      RemoveAfterPush(s.tasks, job);
      PushPlaces(s.tasks, job);
      if CanLaunch(s, fork) {
        PushPlaces(s.procs, Process(job.name, fork.value));
      }
    }
  }

  // ----- a request ------------------------------------------------------------------------------

  /** What a request does and how it is answered: a run request is a submission of its first
      argument with its variables; a workspace request makes the file it names the workspace if it
      is there; everything else changes nothing. */
  ghost predicate Handled(s: Sys, req: Request, fork: Fork, found: Option<Workspace>, t: Sys, reply: Reply) {
    if req.Request? && req.kind == MSG_TASK_RUN then
      Served(s, if req.args == [] then None else Some(req.args[0]), req.vars, fork, t, reply)
    else if req.Request? && req.kind == MSG_WORKSPACE_SET then
      if req.args != [] && found.Some? then t == s.(ws := found.value) && reply == WorkspaceSet
      else t == s && reply == WorkspaceMissing
    else t == s && reply == InvalidCommand
  }

  lemma RequestHandled(s: Sys, req: Request, fork: Fork, found: Option<Workspace>)
    requires Sound(s)
    ensures Handled(s, req, fork, found, EvalSys(s, req, fork, found), EvalReply(s, req, fork, found))
  {
    hide Wf, Submit, Served;
    if req.Request? && req.kind == MSG_TASK_RUN {
      SubmitServed(s, if req.args == [] then None else Some(req.args[0]), req.vars, fork);
    }
  }

  // ----- the process sweep ------------------------------------------------------------------------

  /** The processes of the slots below `i` that have finished, from the highest slot down. */
  function Ended(items: seq<Option<Process>>, polls: seq<bool>, i: nat): seq<Process>
    requires i <= |items| && i <= |polls|
  {
    if i == 0 then []
    else (if items[i - 1].Some? && polls[i - 1] then [items[i - 1].value] else []) + Ended(items, polls, i - 1)
  }

  /** The sweep reaps exactly the processes live at its start that have finished, from the highest
      slot down, and leaves every other slot as it was. */
  lemma SweepOutcome(s: Sys, polls: seq<bool>, forks: seq<Fork>)
    requires Sound(s) && |polls| == |forks| == |s.procs.items|
    ensures var t := SweepProcs(s, |polls|, polls, forks);
            && t.log.reaped == s.log.reaped + Ended(s.procs.items, polls, |polls|)
            && |t.procs.items| == |s.procs.items|
            && forall k :: 0 <= k < |polls| && (s.procs.items[k].None? || !polls[k]) ==>
                 t.procs.items[k] == s.procs.items[k]
  {
    SweepOutcomeBelow(s, |polls|, polls, forks);
  }

  lemma {:induction false} SweepOutcomeBelow(s: Sys, i: nat, polls: seq<bool>, forks: seq<Fork>)
    requires Sound(s) && i <= |polls| == |forks| == |s.procs.items|
    ensures var t := SweepProcs(s, i, polls, forks);
            && t.log.reaped == s.log.reaped + Ended(s.procs.items, polls, i)
            && |t.procs.items| == |s.procs.items|
            && forall k :: 0 <= k < |polls| && (k >= i || s.procs.items[k].None? || !polls[k]) ==>
                 t.procs.items[k] == s.procs.items[k]
    decreases i
  {
    hide Step, Sound, Ended;
    if i == 0 {
      NothingEnded(s.procs.items, polls);
      assert s.log.reaped + [] == s.log.reaped;
    } else {
      var t := PollSlot(s, i - 1, polls, forks);
      PollOutcome(s, i - 1, polls, forks);
      EndedSame(s.procs.items, t.procs.items, polls, i - 1);
      EndedNext(s.procs.items, polls, i, s.log.reaped);
      SweepOutcomeBelow(t, i - 1, polls, forks);
    }
  }

  lemma PollOutcome(s: Sys, k: nat, polls: seq<bool>, forks: seq<Fork>)
    requires Sound(s) && k < |polls| == |forks| == |s.procs.items|
    ensures var t := PollSlot(s, k, polls, forks);
            && t.log.reaped == s.log.reaped + (if s.procs.items[k].Some? && polls[k] then [s.procs.items[k].value] else [])
            && forall j :: 0 <= j < |s.procs.items| && (j != k || s.procs.items[k].None? || !polls[k]) ==>
                 t.procs.items[j] == s.procs.items[j]
  {
    hide Step, Sound;
    assert s.log.reaped + [] == s.log.reaped;
    PollKeepsBelow(s, k, polls, forks);
    if polls[k] {
      if s.procs.items[k].Some? {
        FinishOutcome(s, k, forks[k]);
      } else {
        NothingFinishes(s, k, forks[k]);
      }
    }
  }

  lemma NothingEnded(items: seq<Option<Process>>, polls: seq<bool>)
    ensures Ended(items, polls, 0) == []
  {
  }

  lemma {:induction false} EndedSame(a: seq<Option<Process>>, b: seq<Option<Process>>, polls: seq<bool>, i: nat)
    requires i <= |a| && i <= |b| && i <= |polls| && forall j :: 0 <= j < i ==> a[j] == b[j]
    ensures Ended(a, polls, i) == Ended(b, polls, i)
  {
    if i > 0 {
      EndedSame(a, b, polls, i - 1);
    }
  }

  lemma EndedNext(items: seq<Option<Process>>, polls: seq<bool>, i: nat, before: seq<Process>)
    requires 0 < i <= |items| && i <= |polls|
    ensures before + Ended(items, polls, i)
         == before + (if items[i - 1].Some? && polls[i - 1] then [items[i - 1].value] else []) + Ended(items, polls, i - 1)
  {
  }
}
