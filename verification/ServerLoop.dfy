/** The server's main loop: each pass takes a new connection, sweeps the clients and then the
    processes. What is proved about runs of events holds for every number of passes. */
module ServerLoop {
  import opened CBytes
  import opened SlotStore
  import opened TaskRecord
  import opened Scheduler
  import opened SchedulerSafety
  import opened SchedulerExclusion
  import opened SchedulerSweeps
  import opened TokenCodec

  /** What a pass meets: a connection ready to be used, what the ready sockets yield, which
      processes have finished and what forking does in their place. */
  datatype Round = Round(joined: Option<int>, input: map<int, Incoming>, polls: seq<bool>, forks: seq<Fork>)

  /** A connection over the limit is closed at once. */
  function Connected(socks: seq<int>, joined: Option<int>, maxClients: nat): seq<int> {
    if joined.Some? && |socks| < maxClients then socks + [joined.value] else socks
  }

  predicate Covers(r: Round, slots: nat) {
    |r.polls| == |r.forks| == slots
  }

  /** The start of a pass: the buffers are zeroed, and a new connection joins. */
  function Begun(f: Front, r: Round, maxClients: nat): Front {
    f.(socks := Connected(f.socks, r.joined, maxClients), buf := Zeros(|f.buf|))
  }

  function Pass(f: Front, r: Round, maxClients: nat): (g: Front)
    requires Sound(f.sys) && Covers(r, |f.sys.procs.items|)
    ensures Sound(g.sys) && |g.sys.procs.items| == |f.sys.procs.items|
  {
    var start := Begun(f, r, maxClients);
    PassIsRun(f, r, maxClients);
    var met := SweepClients(start, |start.socks|, r.input);
    met.(sys := SweepProcs(met.sys, |r.polls|, r.polls, r.forks))
  }

  function Passes(f: Front, rs: seq<Round>, maxClients: nat): (g: Front)
    requires Sound(f.sys) && forall k :: 0 <= k < |rs| ==> Covers(rs[k], |f.sys.procs.items|)
    ensures Sound(g.sys) && |g.sys.procs.items| == |f.sys.procs.items|
  {
    if rs == [] then f
    else Pass(Passes(f, rs[..|rs| - 1], maxClients), rs[|rs| - 1], maxClients)
  }

  /** One pass is a pass, and passes follow one another. */
  lemma {:induction false} PassesAppend(f: Front, a: seq<Round>, b: seq<Round>, maxClients: nat)
    requires Sound(f.sys)
    requires (forall k :: 0 <= k < |a| ==> Covers(a[k], |f.sys.procs.items|))
             && (forall k :: 0 <= k < |b| ==> Covers(b[k], |f.sys.procs.items|))
    ensures |b| == 1 ==> Passes(f, b, maxClients) == Pass(f, b[0], maxClients)
    ensures Passes(f, a + b, maxClients) == Passes(Passes(f, a, maxClients), b, maxClients)
    decreases |b|
  {
    hide Sound, Pass, Covers;
    if b == [] {
      assert a + b == a;
    } else {
      var n := |b| - 1;
      assert (a + b)[..|a| + n] == a + b[..n] && (a + b)[|a| + n] == b[n];
      PassesAppend(f, a, b[..n], maxClients);
    }
  }

  /** Reading each packet of the sweep stays inside the receive buffer and the token stream. */
  ghost predicate SweepStays(f: Front, i: nat, input: map<int, Incoming>, slots: nat)
    requires Sound(f.sys) && i <= |f.socks|
    decreases i
  {
    i > 0 ==> VisitStays(f, i - 1, input, slots) && SweepStays(VisitClient(f, i - 1, input), i - 1, input, slots)
  }

  predicate VisitStays(f: Front, k: nat, input: map<int, Incoming>, slots: nat)
    requires k < |f.socks|
  {
    Answered(f.socks[k], input) ==> RequestStays(Filled(f.buf, input[f.socks[k]].bytes), slots)
  }

  /** The events of one pass. */
  function PassEvents(f: Front, r: Round, maxClients: nat): seq<Event>
    requires |r.polls| == |r.forks|
  {
    var start := Begun(f, r, maxClients);
    ClientEvents(start.buf, Backwards(start.socks, |start.socks|), r.input) + SweepEvents(|r.polls|, r.polls, r.forks)
  }

  lemma PassIsRun(f: Front, r: Round, maxClients: nat)
    requires Sound(f.sys) && Covers(r, |f.sys.procs.items|)
    ensures var start := Begun(f, r, maxClients);
            var met := SweepClients(start, |start.socks|, r.input);
            Sound(met.sys) &&
            SweepProcs(met.sys, |r.polls|, r.polls, r.forks) == Run(f.sys, PassEvents(f, r, maxClients))
  {
    hide Sound, Run, SweepClients, SweepProcs, ClientEvents, SweepEvents, Backwards, Connected, LastBuf;
    var start := Begun(f, r, maxClients);
    SweepFrom(start, |start.socks|, r.input);
    var met := SweepClients(start, |start.socks|, r.input);
    var clients := ClientEvents(start.buf, Backwards(start.socks, |start.socks|), r.input);
    SweepIsRun(met.sys, |r.polls|, r.polls, r.forks);
    RunAppend(f.sys, clients, SweepEvents(|r.polls|, r.polls, r.forks));
  }

  /** No file a request of the pass could name is there to become the workspace. */
  predicate KeepsWorkspace(r: Round) {
    forall sock :: sock in r.input && r.input[sock].Bytes? ==> r.input[sock].found.None?
  }

  lemma {:induction false} ClientEventsFixed(buf: seq<Byte>, order: seq<int>, r: Round)
    requires KeepsWorkspace(r)
    ensures Fixed(ClientEvents(buf, order, r.input))
    decreases |order|
  {
    hide RequestOf;
    if order != [] {
      ClientEventsFixed(OneEvent(buf, order[0], r.input).1, order[1..], r);
    }
  }

  lemma {:induction false} SweepEventsFixed(i: nat, polls: seq<bool>, forks: seq<Fork>)
    requires i <= |polls| && i <= |forks|
    ensures Fixed(SweepEvents(i, polls, forks))
  {
    if i > 0 {
      SweepEventsFixed(i - 1, polls, forks);
    }
  }

  /** Any number of passes is a run of events, with a fixed workspace if no request sets one. */
  lemma {:induction false} PassesAreRun(f: Front, rs: seq<Round>, maxClients: nat) returns (es: seq<Event>)
    requires Sound(f.sys) && forall k :: 0 <= k < |rs| ==> Covers(rs[k], |f.sys.procs.items|)
    ensures Passes(f, rs, maxClients).sys == Run(f.sys, es)
    ensures (forall k :: 0 <= k < |rs| ==> KeepsWorkspace(rs[k])) ==> Fixed(es)
    decreases |rs|
  {
    hide Sound, Step, SweepClients, SweepProcs, KeepsWorkspace;
    if rs == [] {
      return [];
    }
    var n := |rs| - 1;
    var r := rs[n];
    var before := PassesAreRun(f, rs[..n], maxClients);
    var g := Passes(f, rs[..n], maxClients);
    PassIsRun(g, r, maxClients);
    es := before + PassEvents(g, r, maxClients);
    RunAppend(f.sys, before, PassEvents(g, r, maxClients));
    if forall k :: 0 <= k < |rs| ==> KeepsWorkspace(rs[k]) {
      var start := Begun(g, r, maxClients);
      ClientEventsFixed(start.buf, Backwards(start.socks, |start.socks|), r);
      SweepEventsFixed(|r.polls|, r.polls, r.forks);
    }
  }

  /** After any number of passes, whatever clients send and however processes end: no task has
      been lost or launched twice, and, while the workspace stays the same, a task that waits for
      its own name has at most one process if no other task's name is a prefix of its name. */
  lemma LoopIsSafe(ws: Workspace, taskCap: nat, procCap: nat, maxClients: nat, bufSize: nat, rs: seq<Round>,
                   name: string)
    requires forall k :: 0 <= k < |rs| ==> Covers(rs[k], |Init(ws, taskCap, procCap).procs.items|)
    ensures var g := Passes(Front(Init(ws, taskCap, procCap), [], [], [], Zeros(bufSize)), rs, maxClients);
            && Conserved(g.sys)
            && ((forall k :: 0 <= k < |rs| ==> KeepsWorkspace(rs[k])) && SelfWaiting(ws, name) && PrefixFree(ws, name)
                ==> AtMostOne(g.sys.procs.items, name))
  {
    hide Sound, Run, Passes, Conserved, SelfWaiting, PrefixFree, Init, AtMostOne, KeepsWorkspace;
    var es := PassesAreRun(Front(Init(ws, taskCap, procCap), [], [], [], Zeros(bufSize)), rs, maxClients);
    Conservation(ws, taskCap, procCap, es);
    if Fixed(es) && SelfWaiting(ws, name) && PrefixFree(ws, name) {
      RunSafe(ws, taskCap, procCap, es, name);
    }
  }
}
