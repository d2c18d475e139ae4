/** From the words typed at the client to the scheduler: what a command does to the server, when it
    is received into a zeroed buffer, and within a pass of the server's main loop, which zeroes the
    buffer once for all the clients it reads. */
module EndToEnd {
  import opened CBytes
  import opened SlotStore
  import opened TaskRecord
  import opened Scheduler
  import opened SchedulerSweeps
  import opened SchedulerOutcomes
  import opened ServerLoop
  import opened TokenCodec
  import opened ClientCommand
  import opened Server
  import opened ClientStack

  /** The request a command is meant as: the plain words behind the command word, and the words
      behind each flag, both in the order typed. */
  function Meant(words: seq<CString>, program: CString, kind: int): Request {
    Request.Request(kind, PlainWords(words, 1), EnvWords(words, program, 1))
  }

  /** A command received into a zeroed buffer is handled as the request it is meant as. */
  lemma CommandReachesScheduler(s: Sys, words: seq<CString>, program: CString, kind: int, size: nat, fork: Fork,
                                found: Option<Workspace>)
    requires Sound(s) && FitsBuffer(words, program, kind, size)
    ensures |Packet(ClientMessage(words, program, kind), Zeros(4))| <= size
    ensures var req := RequestOf(Received(words, program, kind, size));
            && req == Meant(words, program, kind)
            && Handled(s, req, fork, found, EvalSys(s, req, fork, found), EvalReply(s, req, fork, found))
  {
    hide Received, ReadRequest, PlainWords, EnvWords, Handled, Packet, FitsBuffer, RequestStays, EvalSys, EvalReply;
    WordsReachServer(words, program, kind, size, 0);
    RequestHandled(s, Meant(words, program, kind), fork, found);
  }

  /** The whole way: the client builds its message in a fresh stream, writes it to its zeroed buffer
      and sends it; the server, its receive buffer just zeroed, reads it, decodes it and serves it. */
  method RunCommand(words: seq<CString>, program: CString, kind: int, slots: nat, server: Server, index: nat,
                    fork: Fork, found: Option<Workspace>)
    requires server.Valid() && index < server.clients.count
    requires server.inBuf[..] == Zeros(server.inBuf.Length)
    requires FitsBuffer(words, program, kind, server.inBuf.Length)
    requires |words| - 1 + |Built(words, program, 1)| <= slots
    requires |words| - 1 + |Built(words, program, 1)| <= server.stream.tokens.Length
    modifies server, server.clients, server.clients.data, server.inBuf, server.stream, server.stream.tokens
    ensures server.Valid()
    ensures |server.answers| == |old(server.answers)| + 1 && old(server.answers) < server.answers
    ensures Handled(old(server.View()), Meant(words, program, kind), fork, found,
                    server.View(), server.answers[|old(server.answers)|].reply)
    ensures server.clients.Items() == SwapRemove(old(server.clients.Items()), index)
  {
    hide Received, ReadRequest, RequestStays, PlainWords, EnvWords, Handled, Packet, Built, EvalSys, EvalReply,
      Sound, Encode, ClientMessage;
    ghost var size := server.inBuf.Length;
    var out := new Byte[server.inBuf.Length](_ => NUL);
    ghost var m := ClientMessage(words, program, kind);
    ghost var was := out[..];
    assert |was| == size && forall k :: 0 <= k < size ==> was[k] == NUL;
    var n := SendCommand(words, program, kind, slots, out);
    assert was[n - 4..n] == Zeros(4);
    WordsReachServer(words, program, kind, size, server.stream.tokens.Length);
    server.ReadInto(out[..n]);
    ReceivedIs(words, program, kind, size, out[..n]);
    CommandReachesScheduler(server.View(), words, program, kind, size, fork, found);
    var item := server.clients.Get(index);
    server.EvalPacket(fork, found, item.value, index);
  }

  lemma ReceivedIs(words: seq<CString>, program: CString, kind: int, size: nat, bytes: seq<Byte>)
    requires FitsBuffer(words, program, kind, size)
    requires bytes == Packet(ClientMessage(words, program, kind), Zeros(4)) && |bytes| <= size
    ensures Filled(Zeros(size), bytes) == Received(words, program, kind, size)
  {
    hide FitsBuffer, Packet, Receive;
  }

  // ----- within the client sweep -------------------------------------------------------------------

  /** A position whose socket yields bytes: the request in them is handled and answered. */
  lemma VisitHandled(f: Front, k: nat, input: map<int, Incoming>)
    requires Sound(f.sys) && k < |f.socks| && Sends(f.socks[k], input)
    ensures var g, sock := VisitClient(f, k, input), f.socks[k];
            && g.buf == Filled(f.buf, input[sock].bytes)
            && f.answers < g.answers && |g.answers| == |f.answers| + 1 && g.answers[|f.answers|].sock == sock
            && Handled(f.sys, RequestOf(g.buf), input[sock].fork, input[sock].found, g.sys, g.answers[|f.answers|].reply)
  {
    hide EvalSys, EvalReply, Handled, RequestOf, Filled, Sound;
    var sock := f.socks[k];
    RequestHandled(f.sys, RequestOf(Filled(f.buf, input[sock].bytes)), input[sock].fork, input[sock].found);
  }

  /** Positions that yield no bytes leave scheduler, answers and buffer alone. */
  lemma {:induction false} SweepSkips(f: Front, i: nat, j: nat, input: map<int, Incoming>) returns (g: Front)
    requires Sound(f.sys) && j < i <= |f.socks|
    requires forall k :: j < k < i ==> !Sends(f.socks[k], input)
    ensures g.sys == f.sys && g.answers == f.answers && g.buf == f.buf && |g.socks| > j
    ensures g.socks[..j + 1] == f.socks[..j + 1]
    ensures SweepClients(f, i, input) == SweepClients(g, j + 1, input)
    decreases i
  {
    hide Sound, EvalSys, EvalReply, RequestOf, Filled, VisitClient, Sends, SweepClients;
    if i == j + 1 {
      g := f;
    } else {
      var h := VisitClient(f, i - 1, input);
      SkipOne(f, i - 1, input);
      SweepStep(f, i, input);
      SamePrefix(f.socks, h.socks, i - 1, j + 1);
      forall k | j < k < i - 1 ensures !Sends(h.socks[k], input) {
        assert h.socks[k] == f.socks[k];
      }
      g := SweepSkips(h, i - 1, j, input);
    }
  }

  lemma SweepStep(f: Front, i: nat, input: map<int, Incoming>)
    requires Sound(f.sys) && 0 < i <= |f.socks|
    ensures SweepClients(f, i, input) == SweepClients(VisitClient(f, i - 1, input), i - 1, input)
  {
    hide VisitClient;
  }

  lemma SkipOne(f: Front, k: nat, input: map<int, Incoming>)
    requires Sound(f.sys) && k < |f.socks| && !Sends(f.socks[k], input)
    ensures var g := VisitClient(f, k, input); g.sys == f.sys && g.answers == f.answers && g.buf == f.buf
  {
    hide EvalSys, EvalReply, RequestOf, Filled, Sound, SwapRemove;
  }

  lemma SamePrefix(a: seq<int>, b: seq<int>, n: nat, m: nat)
    requires m <= n <= |a| && n <= |b| && a[..n] == b[..n]
    ensures a[..m] == b[..m] && forall k :: 0 <= k < n ==> a[k] == b[k]
  {
    assert a[..m] == a[..n][..m] && b[..m] == b[..n][..m];
    forall k | 0 <= k < n ensures a[k] == b[k] {
      assert a[..n][k] == b[..n][k];
    }
  }

  lemma {:induction false} AnswersStay(f: Front, i: nat, input: map<int, Incoming>)
    requires Sound(f.sys) && i <= |f.socks|
    ensures f.answers <= SweepClients(f, i, input).answers
    decreases i
  {
    hide Sound, EvalSys, EvalReply, RequestOf, Filled, SwapRemove;
    if i > 0 {
      AnswersStay(VisitClient(f, i - 1, input), i - 1, input);
    }
  }

  /** What a sweep does at its first packet, told from the sockets: `h` is the server after it. */
  lemma FirstPacketOfSweep(f: Front, i: nat, j: nat, input: map<int, Incoming>) returns (h: Front)
    requires Sound(f.sys) && j < i <= |f.socks| && Sends(f.socks[j], input)
    requires forall k :: j < k < i ==> !Sends(f.socks[k], input)
    ensures Sound(h.sys) && |h.socks| >= j && h.socks[..j] == f.socks[..j]
    ensures var sock := f.socks[j];
            && h.buf == Filled(f.buf, input[sock].bytes)
            && f.answers < h.answers && |h.answers| == |f.answers| + 1 && h.answers[|f.answers|].sock == sock
            && Handled(f.sys, RequestOf(h.buf), input[sock].fork, input[sock].found, h.sys, h.answers[|f.answers|].reply)
    ensures SweepClients(f, i, input) == SweepClients(h, j, input)
    ensures h.answers <= SweepClients(f, i, input).answers
  {
    hide VisitClient, Sends, Handled, Sound, Filled, RequestOf;
    var g := SweepSkips(f, i, j, input);
    SamePrefix(f.socks, g.socks, j + 1, j);
    VisitHandled(g, j, input);
    h := VisitClient(g, j, input);
    AnswersStay(h, j, input);
  }

  // ----- within a pass of the main loop ------------------------------------------------------------

  /** The clients' part of a pass as the events up to some point and the rest of the pass. */
  lemma RestOfPass(f: Front, r: Round, maxClients: nat, h: Front, j: nat) returns (rest: seq<Event>)
    requires Sound(f.sys) && Covers(r, |f.sys.procs.items|)
    requires Sound(h.sys) && |h.sys.procs.items| == |f.sys.procs.items| && j <= |h.socks|
    requires var start := Begun(f, r, maxClients);
             SweepClients(start, |start.socks|, r.input) == SweepClients(h, j, r.input)
    ensures Pass(f, r, maxClients).sys == Run(h.sys, rest)
    ensures Pass(f, r, maxClients).answers == SweepClients(h, j, r.input).answers
  {
    hide Sound, SweepClients, SweepProcs, ClientEvents, SweepEvents, LastBuf, Begun, Run, Backwards;
    var met := SweepClients(h, j, r.input);
    SweepFrom(h, j, r.input);
    SweepIsRun(met.sys, |r.polls|, r.polls, r.forks);
    var clients := ClientEvents(h.buf, Backwards(h.socks, j), r.input);
    rest := clients + SweepEvents(|r.polls|, r.polls, r.forks);
    RunAppend(h.sys, clients, SweepEvents(|r.polls|, r.polls, r.forks));
  }

  /** Whatever earlier passes have left in the receive buffer, the first client of a pass that sends
      something gets what it asks for: if it sends a command's packet, the command is handled as the
      request it is meant as, in the state the pass starts in, and that is the first answer of the
      pass; the rest of the pass goes on from there. */
  lemma FirstPacketOfPass(f: Front, r: Round, maxClients: nat, j: nat, words: seq<CString>, program: CString,
                          kind: int) returns (t: Sys, rest: seq<Event>)
    requires Sound(f.sys) && Covers(r, |f.sys.procs.items|) && FitsBuffer(words, program, kind, |f.buf|)
    requires var socks := if r.joined.Some? && |f.socks| < maxClients then f.socks + [r.joined.value] else f.socks;
             && j < |socks| && Sends(socks[j], r.input) && (forall k :: j < k < |socks| ==> !Sends(socks[k], r.input))
             && r.input[socks[j]].bytes == Packet(ClientMessage(words, program, kind), Zeros(4))
    ensures var socks := if r.joined.Some? && |f.socks| < maxClients then f.socks + [r.joined.value] else f.socks;
            var g, from := Pass(f, r, maxClients), r.input[socks[j]];
            && |g.answers| > |f.answers| && g.answers[..|f.answers|] == f.answers
            && g.answers[|f.answers|].sock == socks[j]
            && Handled(f.sys, Meant(words, program, kind), from.fork, from.found, t, g.answers[|f.answers|].reply)
            && Sound(t) && g.sys == Run(t, rest)
  {
    hide Handled, Sound, Filled, RequestOf, FitsBuffer, Packet, SweepClients, Pass, Run, Received, Meant, EvalSys,
      EvalReply, SwapRemove, Covers;
    var start := Begun(f, r, maxClients);
    var h := FirstPacketOfSweep(start, |start.socks|, j, r.input);
    var sock := start.socks[j];
    PacketSize(words, program, kind, |f.buf|);
    ReceivedIs(words, program, kind, |f.buf|, r.input[sock].bytes);
    CommandReachesScheduler(f.sys, words, program, kind, |f.buf|, None, None);
    SweepKeepsSize(f.sys, RequestOf(h.buf), r.input[sock].fork, r.input[sock].found, h.sys, h.answers[|f.answers|].reply);
    rest := RestOfPass(f, r, maxClients, h, j);
    t := h.sys;
    AnswersPrefix(f.answers, h.answers, Pass(f, r, maxClients).answers);
  }

  lemma AnswersPrefix(a: seq<Answer>, b: seq<Answer>, c: seq<Answer>)
    requires a < b <= c && |b| == |a| + 1
    ensures |c| > |a| && c[..|a|] == a && c[|a|] == b[|a|]
  {
  }

  lemma SweepKeepsSize(s: Sys, req: Request, fork: Fork, found: Option<Workspace>, t: Sys, reply: Reply)
    requires Handled(s, req, fork, found, t, reply)
    ensures |t.procs.items| == |s.procs.items|
  {
    hide Define;
  }

  /** The second client of a pass need not: the buffer is not zeroed in between. Here the first client
      read sends `FIRST` and the second `SECOND`, and the second task is given a variable of the
      first. */
  lemma SecondPacketOfPassLeaks(f: Front, r: Round, maxClients: nat, a: int, b: int)
    returns (t: Sys, u: Sys, rest: seq<Event>)
    requires Sound(f.sys) && Covers(r, |f.sys.procs.items|) && |f.buf| == 1024
    requires f.socks == [b, a] && a != 0 && b != 0 && r.joined.None? && a in r.input && b in r.input
    requires r.input[a].Bytes? && r.input[a].bytes == ClientPacket(FIRST)
    requires r.input[b].Bytes? && r.input[b].bytes == ClientPacket(SECOND)
    ensures var g, n := Pass(f, r, maxClients), |f.answers|;
            && |g.answers| == n + 2 && g.answers[n].sock == a && g.answers[n + 1].sock == b
            && Handled(f.sys, Request.Request(MSG_TASK_RUN, ["b"], ["PADDING=1234", "Z=9"]),
                       r.input[a].fork, r.input[a].found, t, g.answers[n].reply)
            && Handled(t, Request.Request(MSG_TASK_RUN, ["a"], ["X=1", "Y=2", "Z=9"]),
                       r.input[b].fork, r.input[b].found, u, g.answers[n + 1].reply)
            && Sound(u) && g.sys == Run(u, rest)
  {
    hide Handled, Sound, RequestOf, SweepClients, Pass, Run, ClientPacket, Receive, Zeros, Covers;
    var start := Begun(f, r, maxClients);
    LeakPackets();
    var h := FirstPacketOfSweep(start, 2, 1, r.input);
    t := h.sys;
    SweepKeepsSize(f.sys, RequestOf(h.buf), r.input[a].fork, r.input[a].found, t, h.answers[|f.answers|].reply);
    assert h.socks[..1][0] == h.socks[0] == start.socks[..1][0];
    var h2 := FirstPacketOfSweep(h, 1, 0, r.input);
    u := h2.sys;
    SweepKeepsSize(t, RequestOf(h2.buf), r.input[b].fork, r.input[b].found, u, h2.answers[|f.answers| + 1].reply);
    rest := RestOfPass(f, r, maxClients, h2, 0);
    NothingVisited(h2, r.input);
  }

  lemma NothingVisited(f: Front, input: map<int, Incoming>)
    requires Sound(f.sys)
    ensures SweepClients(f, 0, input) == f
  {
  }

  lemma LeakPackets()
    ensures 0 < |ClientPacket(FIRST)| <= 1024 && 0 < |ClientPacket(SECOND)| <= 1024
    ensures var one := Receive(Zeros(1024), ClientPacket(FIRST));
            && RequestOf(one) == Request.Request(MSG_TASK_RUN, ["b"], ["PADDING=1234", "Z=9"])
            && RequestOf(Receive(one, ClientPacket(SECOND)))
               == Request.Request(MSG_TASK_RUN, ["a"], ["X=1", "Y=2", "Z=9"])
  {
    hide ReadRequest, Receive, ClientPacket;
    FirstMessageArrives();
    SecondMessageOfSweepCanLeak();
  }

  // ----- the processes' part of a pass --------------------------------------------------------------

  /** Between `s` and `t` processes have only been added. */
  ghost predicate OnlyMore(s: Sys, t: Sys) {
    && t.log.reaped == s.log.reaped && |t.procs.items| == |s.procs.items|
    && forall k :: 0 <= k < |s.procs.items| && s.procs.items[k].Some? ==> t.procs.items[k] == s.procs.items[k]
  }

  lemma HandledAdds(s: Sys, req: Request, fork: Fork, found: Option<Workspace>, t: Sys, reply: Reply)
    requires Handled(s, req, fork, found, t, reply)
    ensures OnlyMore(s, t)
  {
    hide Define;
  }

  lemma {:induction false} SweepAdds(f: Front, i: nat, input: map<int, Incoming>)
    requires Sound(f.sys) && i <= |f.socks|
    ensures OnlyMore(f.sys, SweepClients(f, i, input).sys)
    decreases i
  {
    hide Sound, Handled, RequestOf, Filled, VisitClient;
    if i > 0 {
      var g := VisitClient(f, i - 1, input);
      if Sends(f.socks[i - 1], input) {
        VisitHandled(f, i - 1, input);
        var from := input[f.socks[i - 1]];
        HandledAdds(f.sys, RequestOf(g.buf), from.fork, from.found, g.sys, g.answers[|f.answers|].reply);
      } else {
        SkipOne(f, i - 1, input);
      }
      SweepAdds(g, i - 1, input);
    }
  }

  lemma {:induction false} EndedHas(items: seq<Option<Process>>, polls: seq<bool>, i: nat)
    requires i <= |items| && i <= |polls|
    ensures forall k :: 0 <= k < i && items[k].Some? && polls[k] ==> items[k].value in Ended(items, polls, i)
  {
    if i > 0 {
      EndedHas(items, polls, i - 1);
    }
  }

  /** Every process live when a pass begins is reaped in that pass if it has finished and keeps its slot
      if it has not, whatever the clients of the pass ask for. */
  lemma PassReaps(f: Front, r: Round, maxClients: nat)
    requires Sound(f.sys) && Covers(r, |f.sys.procs.items|)
    ensures var s, t := f.sys, Pass(f, r, maxClients).sys;
            && s.log.reaped <= t.log.reaped && |t.procs.items| == |s.procs.items|
            && forall k :: 0 <= k < |s.procs.items| && s.procs.items[k].Some? ==>
                 if r.polls[k] then s.procs.items[k].value in t.log.reaped[|s.log.reaped|..]
                 else t.procs.items[k] == s.procs.items[k]
  {
    hide Sound, SweepClients, SweepProcs, Begun, Ended;
    var start := Begun(f, r, maxClients);
    BegunSys(f, r, maxClients);
    var met := SweepClients(start, |start.socks|, r.input);
    SweepAdds(start, |start.socks|, r.input);
    SweepOutcome(met.sys, r.polls, r.forks);
    EndedHas(met.sys.procs.items, r.polls, |r.polls|);
  }

  lemma BegunSys(f: Front, r: Round, maxClients: nat)
    ensures Begun(f, r, maxClients).sys == f.sys
  {
  }
}
