/** The server object: its stores and client stack are updated in place by the request handler
    and the two sweeps of the main loop. Each method is proved to do exactly what the transition
    system says. */
module Server {
  import opened CBytes
  import opened SlotStore
  import opened TaskRecord
  import opened Scheduler
  import opened SchedulerSweeps
  import opened SchedulerOutcomes
  import opened ServerLoop
  import opened TokenCodec
  import opened TokenStreams
  import opened ClientStack

  /** A task slot between being taken and being filled. */
  const BLANK_JOB := Job("", TaskDef("", None, None, []))

  /** One position of the process sweep, and what has been polled by then. */
  lemma SweepUnfolds(s: Sys, i: nat, polls: seq<bool>, forks: seq<Fork>, before: seq<Process>)
    requires Sound(s) && 0 < i <= |polls| && i <= |forks| && i <= |s.procs.items|
    ensures var here := if Live(s.procs, i - 1) then [s.procs.items[i - 1].value] else [];
            var t := PollSlot(s, i - 1, polls, forks);
            && SweepProcs(s, i, polls, forks) == SweepProcs(t, i - 1, polls, forks)
            && before + Polled(s, i, polls, forks) == before + here + Polled(t, i - 1, polls, forks)
  {
    hide Sound, PollSlot, Polled, LiveDown;
    PolledUnfolds(s, i, polls, forks);
  }

  lemma NothingLeft(s: Sys, polls: seq<bool>, forks: seq<Fork>)
    requires Sound(s)
    ensures SweepProcs(s, 0, polls, forks) == s && Polled(s, 0, polls, forks) == []
  {
  }

  class Server {
    var ws: Workspace
    var tasks: Slots<Job>
    var procs: Slots<Process>
    const clients: Stack
    const inBuf: array<Byte>
    const stream: TokenStream
    /** The answers sent, in order. */
    var answers: seq<Answer>
    /** What has happened: kept for the proofs only. */
    ghost var log: Log
    ghost var visited: seq<int>
    ghost var polled: seq<Process>

    ghost function View(): Sys
      reads this
    {
      Sys(ws, tasks, procs, log)
    }

    ghost predicate Valid()
      reads this, clients, stream
    {
      Sound(View()) && clients.Valid() && stream.Valid()
    }

    ghost function Facing(): Front
      reads this, clients, clients.data, inBuf
      requires clients.Valid()
    {
      Front(View(), clients.Items(), answers, visited, inBuf[..])
    }

    constructor (ws: Workspace, taskCap: nat, procCap: nat, maxClients: nat, bufSize: nat, slots: nat)
      ensures Valid() && fresh(clients) && fresh(clients.data) && fresh(inBuf) && fresh(stream) && fresh(stream.tokens)
      ensures clients.capacity == maxClients && stream.tokens.Length == slots
      ensures Facing() == Front(Init(ws, taskCap, procCap), [], [], [], Zeros(bufSize))
    {
      this.ws := ws;
      tasks, procs := Empty(taskCap), Empty(procCap);
      clients := new Stack(maxClients);
      inBuf := new Byte[bufSize](_ => NUL);
      stream := new TokenStream(slots);
      answers := [];
      log, visited, polled := Log([], [], []), [], [];
      new;
      assert View() == Init(ws, taskCap, procCap);
      assert inBuf[..] == Zeros(bufSize);
    }

    /** `server_task_launch`: refused without a free process slot or when forking fails. */
    method TaskLaunch(job: Job, fork: Fork) returns (status: int)
      requires Sound(View())
      modifies this`procs, this`log
      ensures status == if CanLaunch(old(View()), fork) then 0 else -1
      ensures View() == if status == 0 then Launched(old(View()), job, fork.value) else old(View())
      ensures Sound(View())
    {
      if procs.free == [] || fork.None? {
        return -1;
      }
      PushWf(procs, Process(job.name, fork.value));
      procs := Push(procs, Process(job.name, fork.value));
      log := log.(launched := log.launched + [Launch(job, fork.value)]);
      status := 0;
    }

    /** `server_task_wait_match`: looks through the process slots from the highest down. */
    method WaitMatch(def: TaskDef) returns (found: bool)
      ensures found <==>
                def.wait.Some? && exists i :: 0 <= i < |procs.items| && procs.items[i].Some?
                                    && procs.items[i].value.name == def.wait.value
    {
      if def.wait.Some? {
        var i := |procs.items|;
        while i > 0
          invariant 0 <= i <= |procs.items|
          invariant forall k :: i <= k < |procs.items| && procs.items[k].Some? ==>
                      procs.items[k].value.name != def.wait.value
        {
          i := i - 1;
          if procs.items[i].Some? && procs.items[i].value.name == def.wait.value {
            return true;
          }
        }
      }
      found := false;
    }

    /** `server_check_task_queue`: launches the released task of the highest slot, if any. */
    method CheckTaskQueue(finished: string, fork: Fork) returns (status: int)
      requires Sound(View())
      modifies this`procs, this`tasks, this`log
      ensures View() == CheckQueue(old(View()), finished, fork) && Sound(View())
    {
      hide Sound, Wf, Push, Remove;
      if procs.free == [] {
        return -1;
      }
      ghost var s := View();
      CheckQueueSound(s, finished, fork);
      var i := |tasks.items|;
      while i > 0
        invariant 0 <= i <= |tasks.items| && View() == s
        invariant FindReleased(tasks.items, finished, |tasks.items|) == FindReleased(tasks.items, finished, i)
        decreases i
      {
        i := i - 1;
        if tasks.items[i].Some? && Released(tasks.items[i].value.def, finished) {
          status := TaskLaunch(tasks.items[i].value, fork);
          if status != 0 {
            return -1;
          }
          tasks := Remove(tasks, i);
          return 0;
        }
      }
      status := -1;
    }

    /** `get_task`: takes a slot, fills it from the workspace, and gives it back when there is no
        such task. */
    method GetTask(name: Option<string>, envs: seq<string>) returns (slot: Option<nat>)
      requires Sound(View())
      modifies this`tasks, this`log
      ensures slot.Some? <==> Acceptable(old(View()), name, envs)
      ensures slot.None? ==> View() == old(View())
      ensures slot.Some? ==>
                && slot.value == NextSlot(old(tasks)) < |old(tasks).items|
                && View() == Accepted(old(View()), Job(name.value, Load(old(ws), name.value, envs).value))
      ensures Sound(View())
    {
      if name.None? || tasks.free == [] {
        return None;
      }
      var key := NextSlot(tasks);
      PushWf(tasks, BLANK_JOB);
      RemoveAfterPush(tasks, BLANK_JOB);
      tasks := Push(tasks, BLANK_JOB);
      var def := Load(ws, name.value, envs);
      if def.None? {
        tasks := Remove(tasks, key);
        return None;
      }
      var job := Job(name.value, def.value);
      PushWf(old(tasks), job);
      tasks := Replace(tasks, key, job);
      log := log.(accepted := log.accepted + [job]);
      assert tasks == Push(old(tasks), job);
      slot := Some(key);
    }

    /** A run request, up to the answer. */
    method RunTask(name: Option<string>, envs: seq<string>, fork: Fork) returns (reply: Reply)
      requires Sound(View())
      modifies this`tasks, this`procs, this`log
      ensures View() == Submit(old(View()), name, envs, fork).0
      ensures reply == Submit(old(View()), name, envs, fork).1
      ensures Sound(View())
    {
      SubmitSound(View(), name, envs, fork);
      var slot := GetTask(name, envs);
      if slot.None? {
        return NotFound;
      }
      var job := tasks.items[slot.value].value;
      var wait := WaitMatch(job.def);
      if wait {
        return Queued;
      }
      var status := TaskLaunch(job, fork);
      if status != 0 {
        return LaunchFailed;
      }
      tasks := Remove(tasks, slot.value);
      reply := Started;
    }

    /** `server_respond`: one answer, and the socket is closed and leaves the stack. */
    method Respond(sock: int, index: nat, reply: Reply)
      requires clients.Valid() && index < clients.count
      modifies this`answers, clients, clients.data
      ensures clients.Valid()
      ensures answers == old(answers) + [Answer(sock, reply)]
      ensures clients.Items() == SwapRemove(old(clients.Items()), index)
    {
      answers := answers + [Answer(sock, reply)];
      var _ := clients.RemoveAtFast(index);
    }

    /** What `server_eval_packet` does with a request: every path answers once. */
    method Serve(req: Request, fork: Fork, found: Option<Workspace>, sock: int, index: nat)
      requires Valid() && index < clients.count
      modifies this`ws, this`tasks, this`procs, this`log, this`answers, clients, clients.data
      ensures Valid()
      ensures View() == EvalSys(old(View()), req, fork, found)
      ensures answers == old(answers) + [Answer(sock, EvalReply(old(View()), req, fork, found))]
      ensures Handled(old(View()), req, fork, found, View(), answers[|answers| - 1].reply)
      ensures clients.Items() == SwapRemove(old(clients.Items()), index)
    {
      hide Submit, SwapRemove, Wf, Handled;
      RequestHandled(View(), req, fork, found);
      if req.Malformed? {
        Respond(sock, index, InvalidCommand);
        return;
      }
      if req.kind == MSG_TASK_RUN {
        var name := if req.args == [] then None else Some(req.args[0]);
        var reply := RunTask(name, req.vars, fork);
        Respond(sock, index, reply);
      } else if req.kind == MSG_WORKSPACE_SET {
        if req.args == [] || found.None? {
          Respond(sock, index, WorkspaceMissing);
          return;
        }
        ws := found.value;
        Respond(sock, index, WorkspaceSet);
      } else {
        Respond(sock, index, InvalidCommand);
      }
    }

    /** `server_eval_packet`: reads the request in the receive buffer and serves it. */
    method EvalPacket(fork: Fork, found: Option<Workspace>, sock: int, index: nat)
      requires Valid() && index < clients.count && RequestStays(inBuf[..], stream.tokens.Length)
      modifies this`ws, this`tasks, this`procs, this`log, this`answers, clients, clients.data, stream, stream.tokens
      ensures Valid()
      ensures View() == EvalSys(old(View()), RequestOf(inBuf[..]), fork, found)
      ensures answers == old(answers) + [Answer(sock, EvalReply(old(View()), RequestOf(inBuf[..]), fork, found))]
      ensures Handled(old(View()), RequestOf(inBuf[..]), fork, found, View(), answers[|answers| - 1].reply)
      ensures clients.Items() == SwapRemove(old(clients.Items()), index)
    {
      hide EvalSys, EvalReply, SwapRemove, Sound, ReadRequest, RequestStays, Handled;
      var req := stream.Request(inBuf);
      Serve(req.value, fork, found, sock, index);
    }

    /** `read` into the receive buffer. */
    method ReadInto(bytes: seq<Byte>)
      modifies inBuf
      ensures inBuf[..] == Filled(old(inBuf[..]), bytes)
    {
      var n := if |bytes| <= inBuf.Length then |bytes| else inBuf.Length;
      forall k | 0 <= k < n {
        inBuf[k] := bytes[k];
      }
    }

    /** One position of the client sweep. */
    method Visit(i: nat, input: map<int, Incoming>)
      requires Valid() && i < clients.count && VisitStays(Facing(), i, input, stream.tokens.Length)
      modifies this`ws, this`tasks, this`procs, this`log, this`answers, this`visited, clients, clients.data,
        inBuf, stream, stream.tokens
      ensures Valid() && Facing() == VisitClient(old(Facing()), i, input)
    {
      hide EvalSys, EvalReply, SwapRemove, Sound, RequestOf, Filled, RequestStays;
      var item := clients.Get(i);
      var sock := item.value;
      visited := visited + [sock];
      if sock == 0 {
        var _ := clients.RemoveAtFast(i);
        return;
      }
      if sock in input && input[sock].Bytes? {
        if input[sock].bytes != [] {
          ReadInto(input[sock].bytes);
          EvalPacket(input[sock].fork, input[sock].found, sock, i);
        } else {
          var _ := clients.RemoveAtFast(i);
        }
      }
    }

    /** `server_handle_incoming`, given the socket of a connection that was accepted and set up. */
    method HandleIncoming(joined: Option<int>)
      requires Valid()
      modifies clients, clients.data
      ensures Valid()
      ensures Facing() == old(Facing()).(socks := Connected(old(Facing()).socks, joined, clients.capacity))
      ensures clients.Items()
           == if joined.Some? && |old(clients.Items())| < clients.capacity then old(clients.Items()) + [joined.value]
              else old(clients.Items())
    {
      if joined.Some? && clients.count < clients.capacity {
        var _ := clients.Push(joined.value);
      }
    }

    /** The zeroing of the receive buffer at the start of a pass. */
    method ClearBuffer()
      modifies inBuf
      ensures inBuf[..] == Zeros(inBuf.Length)
    {
      forall k | 0 <= k < inBuf.Length {
        inBuf[k] := NUL;
      }
    }

    /** One pass of the main loop. */
    method Iterate(r: Round)
      requires Valid() && Covers(r, |procs.items|)
      requires var start := Begun(Facing(), r, clients.capacity);
               SweepStays(start, |start.socks|, r.input, stream.tokens.Length)
      modifies this`ws, this`tasks, this`procs, this`log, this`answers, this`visited, this`polled, clients, clients.data,
        inBuf, stream, stream.tokens
      ensures Valid()
      ensures Facing() == Pass(old(Facing()), r, clients.capacity)
    {
      hide Sound, SweepStays, SweepClients, SweepProcs, Connected, LiveDown;
      ClearBuffer();
      HandleIncoming(r.joined);
      assert Facing() == Begun(old(Facing()), r, clients.capacity);
      ReadClients(r.input);
      CheckProcesses(r.polls, r.forks);
    }

    /** The client loop of the server. */
    method ReadClients(input: map<int, Incoming>)
      requires Valid() && SweepStays(Facing(), |clients.Items()|, input, stream.tokens.Length)
      modifies this`ws, this`tasks, this`procs, this`log, this`answers, this`visited, clients, clients.data,
        inBuf, stream, stream.tokens
      ensures Valid()
      ensures Facing() == SweepClients(old(Facing()), |old(clients.Items())|, input)
    {
      hide Sound, VisitClient, VisitStays;
      ghost var f := Facing();
      var i := clients.count;
      while i > 0
        invariant Valid() && 0 <= i <= clients.count && SweepStays(Facing(), i, input, stream.tokens.Length)
        invariant SweepClients(Facing(), i, input) == SweepClients(f, |f.socks|, input)
        decreases i
      {
        i := i - 1;
        Visit(i, input);
      }
    }

    /** The process loop of the server. */
    method CheckProcesses(polls: seq<bool>, forks: seq<Fork>)
      requires Valid() && |polls| == |forks| == |procs.items|
      modifies this`tasks, this`procs, this`log, this`polled
      ensures Valid()
      ensures View() == SweepProcs(old(View()), |polls|, polls, forks)
      ensures polled == old(polled) + LiveDown(old(procs).items, |polls|)
    {
      hide Sound, PollSlot, SweepProcs, Polled, LiveDown, Live;
      ghost var s := View();
      SweepPollsOnce(s, polls, forks);
      var i := |procs.items|;
      while i > 0
        invariant Valid() && 0 <= i <= |polls| == |procs.items|
        invariant SweepProcs(View(), i, polls, forks) == SweepProcs(s, |polls|, polls, forks)
        invariant polled + Polled(View(), i, polls, forks) == old(polled) + Polled(s, |polls|, polls, forks)
        decreases i
      {
        ghost var t, before := View(), polled;
        i := i - 1;
        SweepUnfolds(t, i + 1, polls, forks, before);
        CheckProcess(i, polls, forks);
      }
      NothingLeft(View(), polls, forks);
    }

    /** One slot of the process loop. */
    method CheckProcess(i: nat, polls: seq<bool>, forks: seq<Fork>)
      requires Sound(View()) && i < |polls| == |forks| == |procs.items|
      modifies this`tasks, this`procs, this`log, this`polled
      ensures Sound(View()) && View() == PollSlot(old(View()), i, polls, forks)
      ensures polled == old(polled) + (if Live(old(procs), i) then [old(procs).items[i].value] else [])
    {
      if procs.items[i].None? {
        return;
      }
      var process := procs.items[i].value;
      polled := polled + [process];
      if polls[i] {
        RemoveWf(procs, i);
        procs := Remove(procs, i);
        log := log.(reaped := log.reaped + [process]);
        var _ := CheckTaskQueue(process.name, forks[i]);
      }
    }
  }
}
