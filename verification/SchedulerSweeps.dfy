/** The two sweeps of the server loop as functions: descending over the client sockets, then
    over the process slots, while both containers change under them. */
module SchedulerSweeps {
  import opened CBytes
  import opened SlotStore
  import opened TaskRecord
  import opened Scheduler
  import opened TokenCodec
  import opened ClientStack

  // ----- processes ------------------------------------------------------------------------

  /** Sweeps the process slots below `i`; `polls` says which processes have finished and `forks`
      what happens when the freed slot is to be used. */
  function SweepProcs(s: Sys, i: nat, polls: seq<bool>, forks: seq<Fork>): Sys
    requires Sound(s) && i <= |polls| && i <= |forks|
    decreases i
  {
    if i == 0 then s else SweepProcs(PollSlot(s, i - 1, polls, forks), i - 1, polls, forks)
  }

  /** One slot: an empty one is passed over, a process still running is left alone. */
  function PollSlot(s: Sys, k: nat, polls: seq<bool>, forks: seq<Fork>): (t: Sys)
    requires Sound(s) && k < |polls| && k < |forks|
    ensures Sound(t) && |t.procs.items| == |s.procs.items| && |t.tasks.items| == |s.tasks.items|
  {
    if polls[k] then Step(s, FinishEvent(k, forks[k])) else s
  }

  /** The processes whose status is asked for, in the order of the sweep. */
  function Polled(s: Sys, i: nat, polls: seq<bool>, forks: seq<Fork>): seq<Process>
    requires Sound(s) && i <= |polls| && i <= |forks| && i <= |s.procs.items|
    decreases i
  {
    if i == 0 then []
    else (if Live(s.procs, i - 1) then [s.procs.items[i - 1].value] else [])
         + Polled(PollSlot(s, i - 1, polls, forks), i - 1, polls, forks)
  }

  /** The live processes of the slots below `i`, from the highest slot down. */
  function LiveDown(items: seq<Option<Process>>, i: nat): seq<Process>
    requires i <= |items|
  {
    if i == 0 then []
    else (if items[i - 1].Some? then [items[i - 1].value] else []) + LiveDown(items, i - 1)
  }

  /** Checking the queue launches at most one process. */
  lemma CheckQueueProcs(s: Sys, finished: string, fork: Fork) returns (p: Process)
    requires Sound(s)
    ensures CheckQueue(s, finished, fork).procs == s.procs
            || (s.procs.free != [] && NextSlot(s.procs) < |s.procs.items|
                && CheckQueue(s, finished, fork).procs == Push(s.procs, p))
  {
    var j := FindReleased(s.tasks.items, finished, |s.tasks.items|);
    p := Process("", 0);
    if j.Some? && CanLaunch(s, fork) {
      p := Process(s.tasks.items[j.value].value.name, fork.value);
    }
  }

  /** A completion touches no slot but its own: a launch from the queue reuses it, because the
      free list hands out last what was freed last. */
  lemma FinishKeepsOthers(s: Sys, k: nat, fork: Fork)
    requires Sound(s)
    ensures |Finish(s, k, fork).procs.items| == |s.procs.items|
    ensures forall j :: 0 <= j < |s.procs.items| && j != k ==>
              Finish(s, k, fork).procs.items[j] == s.procs.items[j]
  {
    if Live(s.procs, k) {
      RemoveWf(s.procs, k);
      var p := CheckQueueProcs(Reaped(s, k), s.procs.items[k].value.name, fork);
      PushAfterRemove(s.procs, k, p);
      hide CheckQueue, Wf;
    }
  }

  lemma {:induction false} LiveDownSame(a: seq<Option<Process>>, b: seq<Option<Process>>, i: nat)
    requires i <= |a| && i <= |b| && forall j :: 0 <= j < i ==> a[j] == b[j]
    ensures LiveDown(a, i) == LiveDown(b, i)
  {
    if i > 0 {
      LiveDownSame(a, b, i - 1);
    }
  }

  lemma PollKeepsBelow(s: Sys, k: nat, polls: seq<bool>, forks: seq<Fork>)
    requires Sound(s) && k < |polls| && k < |forks|
    ensures var t := PollSlot(s, k, polls, forks);
            |t.procs.items| == |s.procs.items|
            && forall j :: 0 <= j < |s.procs.items| && j != k ==> t.procs.items[j] == s.procs.items[j]
  {
    FinishKeepsOthers(s, k, forks[k]);
    hide Finish, Sound;
  }

  lemma PolledUnfolds(s: Sys, i: nat, polls: seq<bool>, forks: seq<Fork>)
    requires Sound(s) && 0 < i <= |polls| && i <= |forks| && i <= |s.procs.items|
    ensures var here := if Live(s.procs, i - 1) then [s.procs.items[i - 1].value] else [];
            && Polled(s, i, polls, forks) == here + Polled(PollSlot(s, i - 1, polls, forks), i - 1, polls, forks)
            && LiveDown(s.procs.items, i) == here + LiveDown(s.procs.items, i - 1)
  {
    hide PollSlot, Sound;
  }

  lemma {:induction false} PolledBelow(s: Sys, i: nat, polls: seq<bool>, forks: seq<Fork>)
    requires Sound(s) && i <= |polls| && i <= |forks| && i <= |s.procs.items|
    ensures Polled(s, i, polls, forks) == LiveDown(s.procs.items, i)
    decreases i
  {
    hide *;
    if i == 0 {
      NothingPolled(s, polls, forks);
    } else {
      var t := PollSlot(s, i - 1, polls, forks);
      PollKeepsBelow(s, i - 1, polls, forks);
      LiveDownSame(t.procs.items, s.procs.items, i - 1);
      PolledUnfolds(s, i, polls, forks);
      PolledBelow(t, i - 1, polls, forks);
    }
  }

  lemma NothingPolled(s: Sys, polls: seq<bool>, forks: seq<Fork>)
    requires Sound(s)
    ensures Polled(s, 0, polls, forks) == LiveDown(s.procs.items, 0) == []
  {
  }

  /** The sweep asks after every process live at its start exactly once, from the highest slot
      down, and never after one launched during the sweep. */
  lemma SweepPollsOnce(s: Sys, polls: seq<bool>, forks: seq<Fork>)
    requires Sound(s) && |polls| == |forks| == |s.procs.items|
    ensures Polled(s, |polls|, polls, forks) == LiveDown(s.procs.items, |polls|)
  {
    PolledBelow(s, |polls|, polls, forks);
  }

  /** The sweep's completions as events. */
  function SweepEvents(i: nat, polls: seq<bool>, forks: seq<Fork>): seq<Event>
    requires i <= |polls| && i <= |forks|
  {
    if i == 0 then []
    else (if polls[i - 1] then [FinishEvent(i - 1, forks[i - 1])] else []) + SweepEvents(i - 1, polls, forks)
  }

  lemma RunFirst(s: Sys, e: Event, es: seq<Event>)
    requires Sound(s)
    ensures Run(s, [e] + es) == Run(Step(s, e), es)
  {
    RunAppend(s, [e], es);
    hide Step;
    assert [e][..0] == [];
  }

  /** So everything proved about runs holds across sweeps. */
  lemma {:induction false} SweepIsRun(s: Sys, i: nat, polls: seq<bool>, forks: seq<Fork>)
    requires Sound(s) && i <= |polls| && i <= |forks|
    ensures SweepProcs(s, i, polls, forks) == Run(s, SweepEvents(i, polls, forks))
    decreases i
  {
    hide Step, Sound, Run, SweepEvents;
    OneMore(i, polls, forks);
    if i == 0 {
      RunNone(s);
    } else {
      SweepIsRun(PollSlot(s, i - 1, polls, forks), i - 1, polls, forks);
      if polls[i - 1] {
        RunFirst(s, FinishEvent(i - 1, forks[i - 1]), SweepEvents(i - 1, polls, forks));
      }
    }
  }

  lemma OneMore(i: nat, polls: seq<bool>, forks: seq<Fork>)
    requires i <= |polls| && i <= |forks|
    ensures i == 0 ==> SweepEvents(i, polls, forks) == []
    ensures i > 0 ==>
              SweepEvents(i, polls, forks)
              == if polls[i - 1] then [FinishEvent(i - 1, forks[i - 1])] + SweepEvents(i - 1, polls, forks)
                 else SweepEvents(i - 1, polls, forks)
  {
    if i > 0 && !polls[i - 1] {
      assert [] + SweepEvents(i - 1, polls, forks) == SweepEvents(i - 1, polls, forks);
    }
  }

  // ----- clients ----------------------------------------------------------------------------

  /** What a ready socket yields when it is read: bytes, none of them when the connection has been
      closed, or an error. With bytes come what the system does about the request in them: how a
      fork ends, and the file a workspace request names, if it is there. */
  datatype Incoming = Bytes(bytes: seq<Byte>, fork: Fork, found: Option<Workspace>) | ReadError

  datatype Answer = Answer(sock: int, reply: Reply)

  /** The server as the client sweep sees it: the scheduler, the connected sockets, what has been
      answered and looked at so far, and the receive buffer, which all clients share. */
  datatype Front = Front(sys: Sys, socks: seq<int>, answers: seq<Answer>, visited: seq<int>, buf: seq<Byte>)

  /** The receive buffer after a read: the bytes that fit, and behind them what was there before. */
  function Filled(buf: seq<Byte>, bytes: seq<Byte>): (r: seq<Byte>)
    ensures |r| == |buf|
  {
    if |bytes| <= |buf| then Receive(buf, bytes) else bytes[..|buf|]
  }

  /** The request in the receive buffer. (Buffers whose reading runs off their end are excluded by
      the server's methods; here they count as malformed.) */
  function RequestOf(buf: seq<Byte>): Request {
    var req := ReadRequest(buf);
    if req.Some? then req.value else Malformed
  }

  /** What a request asks the scheduler to do. */
  function EventOf(req: Request, fork: Fork, found: Option<Workspace>): Option<Event> {
    if req.Malformed? then None
    else if req.kind == MSG_TASK_RUN then
      Some(SubmitEvent(if req.args == [] then None else Some(req.args[0]), req.vars, fork))
    else if req.kind == MSG_WORKSPACE_SET && req.args != [] && found.Some? then Some(SetEvent(found.value))
    else None
  }

  /** `server_eval_packet`: the effect of a request. */
  function EvalSys(s: Sys, req: Request, fork: Fork, found: Option<Workspace>): (t: Sys)
    requires Sound(s)
    ensures Sound(t) && |t.procs.items| == |s.procs.items| && |t.tasks.items| == |s.tasks.items|
  {
    var e := EventOf(req, fork, found);
    if e.None? then s else Step(s, e.value)
  }

  /** ... and the answer to it. */
  function EvalReply(s: Sys, req: Request, fork: Fork, found: Option<Workspace>): Reply
    requires Sound(s)
  {
    var e := EventOf(req, fork, found);
    if e.Some? && e.value.SubmitEvent? then Submit(s, e.value.name, e.value.envs, e.value.fork).1
    else if e.Some? then WorkspaceSet
    else if req.Request? && req.kind == MSG_WORKSPACE_SET then WorkspaceMissing
    else InvalidCommand
  }

  predicate Answered(sock: int, input: map<int, Incoming>) {
    sock != 0 && sock in input && input[sock].Bytes? && input[sock].bytes != []
  }

  /** One position of the client sweep. */
  function VisitClient(f: Front, k: nat, input: map<int, Incoming>): (g: Front)
    requires Sound(f.sys) && k < |f.socks|
    ensures Sound(g.sys) && |g.sys.procs.items| == |f.sys.procs.items| && k <= |g.socks|
    ensures g.socks[..k] == f.socks[..k] && |g.buf| == |f.buf|
  {
    SwapRemoveBag(f.socks, k);
    var sock := f.socks[k];
    var seen := f.(visited := f.visited + [sock]);
    if Answered(sock, input) then
      var buf, fork, found := Filled(f.buf, input[sock].bytes), input[sock].fork, input[sock].found;
      var req := RequestOf(buf);
      Front(EvalSys(f.sys, req, fork, found), SwapRemove(f.socks, k),
            f.answers + [Answer(sock, EvalReply(f.sys, req, fork, found))], seen.visited, buf)
    else if Leaves(sock, input) then seen.(socks := SwapRemove(f.socks, k))
    else seen
  }

  function SweepClients(f: Front, i: nat, input: map<int, Incoming>): (g: Front)
    requires Sound(f.sys) && i <= |f.socks|
    ensures Sound(g.sys) && |g.sys.procs.items| == |f.sys.procs.items| && |g.buf| == |f.buf|
    decreases i
  {
    if i == 0 then f else SweepClients(VisitClient(f, i - 1, input), i - 1, input)
  }

  /** The sockets of the first `i` positions, last first. */
  function Backwards(socks: seq<int>, i: nat): seq<int>
    requires i <= |socks|
  {
    if i == 0 then [] else [socks[i - 1]] + Backwards(socks, i - 1)
  }

  /** The socket is a real one, and reading it yields bytes. */
  predicate Sends(sock: int, input: map<int, Incoming>) {
    sock != 0 && sock in input && input[sock].Bytes? && |input[sock].bytes| > 0
  }

  /** A socket the sweep takes out: answered, closed by the client, or the zero descriptor. */
  predicate Leaves(sock: int, input: map<int, Incoming>) {
    sock == 0 || (sock in input && input[sock].Bytes?)
  }

  function Leavers(socks: seq<int>, input: map<int, Incoming>): multiset<int> {
    if socks == [] then multiset{}
    else
      var leaves := socks[0] == 0 || (socks[0] in input && !input[socks[0]].ReadError?);
      (if leaves then multiset{socks[0]} else multiset{}) + Leavers(socks[1..], input)
  }

  function AnsweredSocks(socks: seq<int>, input: map<int, Incoming>): seq<int> {
    if socks == [] then []
    else (if Sends(socks[0], input) then [socks[0]] else []) + AnsweredSocks(socks[1..], input)
  }

  function SocksOf(answers: seq<Answer>): (s: seq<int>)
    ensures |s| == |answers|
  {
    seq(|answers|, i requires 0 <= i < |answers| => answers[i].sock)
  }

  /** The event in what one socket yields, and the receive buffer after it. */
  function OneEvent(buf: seq<Byte>, sock: int, input: map<int, Incoming>): (seq<Event>, seq<Byte>) {
    if !Sends(sock, input) then ([], buf)
    else
      var bytes := input[sock].bytes;
      var filled := if |bytes| <= |buf| then bytes + buf[|bytes|..] else bytes[..|buf|];
      var e := EventOf(RequestOf(filled), input[sock].fork, input[sock].found);
      (if e.Some? then [e.value] else [], filled)
  }

  /** The requests of the visited sockets as events, each read from the buffer the ones before it
      have left. */
  function ClientEvents(buf: seq<Byte>, socks: seq<int>, input: map<int, Incoming>): seq<Event>
    decreases |socks|
  {
    if socks == [] then []
    else OneEvent(buf, socks[0], input).0 + ClientEvents(OneEvent(buf, socks[0], input).1, socks[1..], input)
  }

  /** The receive buffer after all of them. */
  function LastBuf(buf: seq<Byte>, socks: seq<int>, input: map<int, Incoming>): seq<Byte>
    decreases |socks|
  {
    if socks == [] then buf else LastBuf(OneEvent(buf, socks[0], input).1, socks[1..], input)
  }

  lemma {:induction false} BackwardsSame(a: seq<int>, b: seq<int>, i: nat)
    requires i <= |a| && i <= |b| && a[..i] == b[..i]
    ensures Backwards(a, i) == Backwards(b, i)
  {
    if i > 0 {
      assert a[i - 1] == a[..i][i - 1] == b[..i][i - 1] == b[i - 1];
      assert a[..i - 1] == a[..i][..i - 1] && b[..i - 1] == b[..i][..i - 1];
      BackwardsSame(a, b, i - 1);
    }
  }

  /** What the sweep over the first `i` positions adds up to. */
  ghost predicate Swept(f: Front, g: Front, order: seq<int>, input: map<int, Incoming>)
    requires Sound(f.sys)
  {
    && g.visited == f.visited + order
    && multiset(f.socks) == multiset(g.socks) + Leavers(order, input)
    && SocksOf(g.answers) == SocksOf(f.answers) + AnsweredSocks(order, input)
    && g.sys == Run(f.sys, ClientEvents(f.buf, order, input))
    && g.buf == LastBuf(f.buf, order, input)
  }

  lemma VisitSwept(f: Front, k: nat, input: map<int, Incoming>)
    requires Sound(f.sys) && k < |f.socks|
    ensures Swept(f, VisitClient(f, k, input), [f.socks[k]], input)
  {
    hide Step, Run, EvalSys, EvalReply, EventOf, Sound, SwapRemove, ClientEvents, LastBuf, Leavers, AnsweredSocks,
      SocksOf, Filled, RequestOf, OneEvent, Sends;
    var sock := f.socks[k];
    SwapRemoveBag(f.socks, k);
    OneSock(sock, input);
    OneRun(f.sys, f.buf, sock, input);
    if Answered(sock, input) {
      var req := RequestOf(Filled(f.buf, input[sock].bytes));
      SocksAppend(f.answers, Answer(sock, EvalReply(f.sys, req, input[sock].fork, input[sock].found)));
    }
    assert SocksOf(f.answers) + [] == SocksOf(f.answers);
    assert multiset(f.socks) == multiset(f.socks) + multiset{};
  }

  lemma OneSock(sock: int, input: map<int, Incoming>)
    ensures Leavers([sock], input) == if Leaves(sock, input) then multiset{sock} else multiset{}
    ensures AnsweredSocks([sock], input) == if Answered(sock, input) then [sock] else []
  {
    assert [sock][1..] == [];
  }

  lemma SocksAppend(answers: seq<Answer>, a: Answer)
    ensures SocksOf(answers + [a]) == SocksOf(answers) + [a.sock]
  {
  }

  lemma OneRun(s: Sys, buf: seq<Byte>, sock: int, input: map<int, Incoming>)
    requires Sound(s)
    ensures Run(s, ClientEvents(buf, [sock], input)) ==
              if Answered(sock, input) then
                EvalSys(s, RequestOf(Filled(buf, input[sock].bytes)), input[sock].fork, input[sock].found)
              else s
    ensures LastBuf(buf, [sock], input) ==
              if Answered(sock, input) then Filled(buf, input[sock].bytes) else buf
  {
    hide Step, EventOf, RequestOf, Run, Sound;
    OneOf(buf, sock, input);
    if Answered(sock, input) {
      var filled := Filled(buf, input[sock].bytes);
      var e := EventOf(RequestOf(filled), input[sock].fork, input[sock].found);
      if e.Some? {
        RunOne(s, e.value);
      } else {
        RunNone(s);
      }
    } else {
      RunNone(s);
    }
  }

  lemma OneOf(buf: seq<Byte>, sock: int, input: map<int, Incoming>)
    ensures ClientEvents(buf, [sock], input) == OneEvent(buf, sock, input).0
    ensures LastBuf(buf, [sock], input) == OneEvent(buf, sock, input).1
  {
    hide OneEvent;
    assert [sock][1..] == [];
    var (events, after) := OneEvent(buf, sock, input);
    assert ClientEvents(after, [], input) == [] && LastBuf(after, [], input) == after;
    assert events + [] == events;
  }

  lemma RunOne(s: Sys, e: Event)
    requires Sound(s)
    ensures Run(s, [e]) == Step(s, e)
  {
    hide Step, Sound;
    assert [e][..0] == [];
  }

  lemma RunNone(s: Sys)
    requires Sound(s)
    ensures Run(s, []) == s
  {
  }

  lemma SweptTwice(f: Front, g: Front, h: Front, a: int, order: seq<int>, input: map<int, Incoming>)
    requires Sound(f.sys) && Sound(g.sys) && Swept(f, g, [a], input) && Swept(g, h, order, input)
    ensures Swept(f, h, [a] + order, input)
  {
    hide Sound, Leavers, AnsweredSocks, ClientEvents, LastBuf, Run, SocksOf;
    FirstLeaver(a, order, input);
    FirstAnswered(a, order, input);
    FirstEvents(f.buf, a, order, input);
    RunAppend(f.sys, ClientEvents(f.buf, [a], input), ClientEvents(g.buf, order, input));
    AddUp(multiset(h.socks), Leavers([a], input), Leavers(order, input));
    ThreeParts(f.visited, [a], order);
    ThreeParts(SocksOf(f.answers), AnsweredSocks([a], input), AnsweredSocks(order, input));
  }

  lemma AddUp(h: multiset<int>, a: multiset<int>, b: multiset<int>)
    ensures (h + b) + a == h + (a + b)
  {
  }

  lemma ThreeParts<T>(a: seq<T>, b: seq<T>, c: seq<T>)
    ensures (a + b) + c == a + (b + c)
  {
  }

  lemma FirstLeaver(a: int, order: seq<int>, input: map<int, Incoming>)
    ensures Leavers([a] + order, input) == Leavers([a], input) + Leavers(order, input)
  {
    assert ([a] + order)[1..] == order && [a][1..] == [];
  }

  lemma FirstAnswered(a: int, order: seq<int>, input: map<int, Incoming>)
    ensures AnsweredSocks([a] + order, input) == AnsweredSocks([a], input) + AnsweredSocks(order, input)
  {
    hide Sends;
    assert ([a] + order)[1..] == order && [a][1..] == [];
  }

  lemma FirstEvents(buf: seq<Byte>, a: int, order: seq<int>, input: map<int, Incoming>)
    ensures ClientEvents(buf, [a] + order, input)
         == ClientEvents(buf, [a], input) + ClientEvents(LastBuf(buf, [a], input), order, input)
    ensures LastBuf(buf, [a] + order, input) == LastBuf(LastBuf(buf, [a], input), order, input)
  {
    hide OneEvent;
    assert ([a] + order)[1..] == order;
    OneOf(buf, a, input);
  }

  lemma SweptNothing(f: Front, input: map<int, Incoming>)
    requires Sound(f.sys)
    ensures Swept(f, f, [], input)
  {
  }

  lemma {:induction false} SweepFrom(f: Front, i: nat, input: map<int, Incoming>)
    requires Sound(f.sys) && i <= |f.socks|
    ensures Swept(f, SweepClients(f, i, input), Backwards(f.socks, i), input)
    decreases i
  {
    hide VisitClient, Swept, Sound, Leavers, AnsweredSocks, ClientEvents, LastBuf, Run;
    if i == 0 {
      SweptNothing(f, input);
    } else {
      var g := VisitClient(f, i - 1, input);
      VisitSwept(f, i - 1, input);
      BackwardsSame(f.socks, g.socks, i - 1);
      SweepFrom(g, i - 1, input);
      SweptTwice(f, g, SweepClients(g, i - 1, input), f.socks[i - 1], Backwards(g.socks, i - 1), input);
    }
  }

  lemma {:induction false} BackwardsAt(socks: seq<int>, i: nat)
    requires i <= |socks|
    ensures |Backwards(socks, i)| == i
    ensures forall k :: 0 <= k < i ==> Backwards(socks, i)[k] == socks[i - 1 - k]
  {
    if i > 0 {
      BackwardsAt(socks, i - 1);
    }
  }

  /** Although removal moves sockets around during the loop, the sweep looks at every socket
      connected at its start exactly once, last first; answers each packet exactly once, in that
      order; takes out exactly the sockets it answered, found closed, or that are zero; and has
      run the requests in that order, each as read from the buffer the ones before it left. */
  lemma ClientSweep(s: Sys, socks: seq<int>, buf: seq<Byte>, input: map<int, Incoming>)
    requires Sound(s)
    ensures var g := SweepClients(Front(s, socks, [], [], buf), |socks|, input);
            var order := g.visited;
            && |order| == |socks| && (forall k :: 0 <= k < |socks| ==> order[k] == socks[|socks| - 1 - k])
            && multiset(socks) == multiset(g.socks) + Leavers(order, input)
            && SocksOf(g.answers) == AnsweredSocks(order, input)
            && g.sys == Run(s, ClientEvents(buf, order, input))
            && g.buf == LastBuf(buf, order, input)
  {
    hide Sound, SweepClients, Run, Leavers, AnsweredSocks, ClientEvents, LastBuf, Backwards;
    SweepFrom(Front(s, socks, [], [], buf), |socks|, input);
    BackwardsAt(socks, |socks|);
    assert [] + Backwards(socks, |socks|) == Backwards(socks, |socks|);
    NothingAnswered(AnsweredSocks(Backwards(socks, |socks|), input));
  }

  lemma NothingAnswered(socks: seq<int>)
    ensures SocksOf([]) + socks == socks
  {
  }
}
