/** How the client turns its argument words into a message, and what the server reads. */
module ClientCommand {
  import opened CBytes
  import opened TokenCodec
  import opened TokenStreams

  const ENV_FLAG: CString := "-e"

  /** The word at index `i`; the index array is zeroed memory, so one past the last word is
      argv[0], the program's own name. */
  function WordAt(words: seq<CString>, program: CString, i: nat): CString {
    if i < |words| then words[i] else program
  }

  /** The tokens made from the words from index `i` on. */
  function Built(words: seq<CString>, program: CString, i: nat): (ts: seq<Token>)
    ensures i <= |words| ==> |ts| <= |words| - i
    ensures forall k :: 0 <= k < |ts| ==> !Skipped(ts[k])
    decreases |words| - i
  {
    if i >= |words| then []
    else if words[i] == ENV_FLAG then
      [Token(VAR, Some(WordAt(words, program, i + 1)))] + Built(words, program, i + 2)
    else [Token(ARG, Some(words[i]))] + Built(words, program, i + 1)
  }

  /** The words a reader of the command line takes for plain arguments: those that are neither
      a flag nor the word a flag consumes. */
  function PlainWords(words: seq<CString>, i: nat): seq<CString>
    decreases |words| - i
  {
    if i >= |words| then []
    else if words[i] == ENV_FLAG then PlainWords(words, i + 2)
    else [words[i]] + PlainWords(words, i + 1)
  }

  /** The words consumed by a flag. */
  function EnvWords(words: seq<CString>, program: CString, i: nat): seq<CString>
    decreases |words| - i
  {
    if i >= |words| then []
    else if words[i] == ENV_FLAG then
      [WordAt(words, program, i + 1)] + EnvWords(words, program, i + 2)
    else EnvWords(words, program, i + 1)
  }

  /** Fills `msg`: the length is set to the number of words after the command first, and the
      tokens are appended behind that many slots. */
  method EvalCmds(words: seq<CString>, program: CString, kind: int, msg: TokenStream)
    requires msg.Valid() && |words| >= 1
    requires |words| - 1 + |Built(words, program, 1)| <= msg.tokens.Length
    modifies msg, msg.tokens
    ensures msg.Valid()
    ensures msg.Contents()
         == Message(kind, old(msg.tokens[..|words| - 1]) + Built(words, program, 1))
  {
    msg.kind := kind;
    msg.length := |words| - 1;
    ghost var lead := msg.tokens[..msg.length];
    ghost var all := Built(words, program, 1);
    var i := 1;
    while i < |words|
      invariant 1 <= i <= |words| + 1
      invariant msg.Valid() && msg.kind == kind
      invariant msg.length + |Built(words, program, i)| == |lead + all|
      invariant msg.tokens[..msg.length] + Built(words, program, i) == lead + all
    {
      ghost var sofar, from := msg.tokens[..msg.length], i;
      var word := words[i];
      var tokenKind;
      if word == ENV_FLAG {
        tokenKind := VAR;
        i := i + 1;
        word := WordAt(words, program, i);
      } else {
        tokenKind := ARG;
      }
      i := i + 1;
      BuiltStep(words, program, from, sofar);
      hide Built;
      msg.AddToken(tokenKind, Some(word));
    }
    assert msg.tokens[..msg.length] + [] == msg.tokens[..msg.length];
  }

  lemma BuiltStep(words: seq<CString>, program: CString, i: nat, sofar: seq<Token>)
    requires i < |words|
    ensures var flag := words[i] == ENV_FLAG;
            var t := if flag then Token(VAR, Some(WordAt(words, program, i + 1))) else Token(ARG, Some(words[i]));
            var rest := Built(words, program, if flag then i + 2 else i + 1);
            && |Built(words, program, i)| == 1 + |rest|
            && sofar + Built(words, program, i) == (sofar + [t]) + rest
  {
  }

  function Cleared(n: nat): seq<Token> {
    seq(n, _ => CLEARED)
  }

  /** What a freshly allocated stream holds after `EvalCmds`. */
  function ClientMessage(words: seq<CString>, program: CString, kind: int): Message
    requires |words| >= 1
  {
    Message(kind, Cleared(|words| - 1) + Built(words, program, 1))
  }

  lemma {:induction false} ClearedKeepsNothing(n: nat, ts: seq<Token>)
    requires forall i :: 0 <= i < |ts| ==> !Skipped(ts[i])
    ensures Kept(Cleared(n) + ts) == ts
    ensures EncodeTokens(Cleared(n) + ts) == EncodeTokens(ts)
    ensures forall kind: Byte :: kind != NONE ==> Words(Cleared(n) + ts, kind) == Words(ts, kind)
  {
    if n == 0 {
      assert Cleared(0) + ts == ts;
      KeptAll(ts);
    } else {
      assert (Cleared(n) + ts)[1..] == Cleared(n - 1) + ts;
      ClearedKeepsNothing(n - 1, ts);
    }
  }

  lemma {:induction false} BuiltWords(words: seq<CString>, program: CString, i: nat)
    ensures Words(Built(words, program, i), ARG) == PlainWords(words, i)
    ensures Words(Built(words, program, i), VAR) == EnvWords(words, program, i)
    decreases |words| - i
  {
    if i < |words| {
      BuiltWords(words, program, if words[i] == ENV_FLAG then i + 2 else i + 1);
    }
  }

  /** The client as far as the socket: a fresh stream of `slots` tokens is filled from the words and
      written to the buffer; the first `n` bytes of it are sent. */
  method SendCommand(words: seq<CString>, program: CString, kind: int, slots: nat, out: array<Byte>)
    returns (n: nat)
    requires |words| >= 1 && |words| - 1 + |Built(words, program, 1)| <= slots
    requires 4 + |Encode(ClientMessage(words, program, kind))| + 4 <= out.Length
    modifies out
    ensures n == 4 + |Encode(ClientMessage(words, program, kind))| + 4
    ensures out[..n] == Packet(ClientMessage(words, program, kind), old(out[n - 4..n]))
  {
    hide Built, Encode;
    var msg := new TokenStream(slots);
    EvalCmds(words, program, kind, msg);
    assert msg.Contents() == ClientMessage(words, program, kind);
    n := msg.Send(out);
  }

  /** The message fits a receive buffer of `size` bytes, with two bytes behind it for each token the
      server looks for in vain. */
  ghost predicate FitsBuffer(words: seq<CString>, program: CString, kind: int, size: nat) {
    && |words| >= 2 && IsInt32(kind) && 2 * |words| < 0x8000_0000
    && var end := 4 + |Encode(ClientMessage(words, program, kind))|;
       end + 4 <= size && end + 2 * (|words| - 1) <= size
  }

  /** What is in the server's buffer after the message has been received into zeros. */
  function Received(words: seq<CString>, program: CString, kind: int, size: nat): seq<Byte>
    requires FitsBuffer(words, program, kind, size)
    requires |Packet(ClientMessage(words, program, kind), Zeros(4))| <= size
  {
    Receive(Zeros(size), Packet(ClientMessage(words, program, kind), Zeros(4)))
  }

  lemma PacketSize(words: seq<CString>, program: CString, kind: int, size: nat)
    requires FitsBuffer(words, program, kind, size)
    ensures |Packet(ClientMessage(words, program, kind), Zeros(4))| <= size
  {
  }

  /** Behind the message lie zeros only. */
  lemma ZerosBehind(m: Message, size: nat)
    requires |Packet(m, Zeros(4))| <= size
    ensures var r := Receive(Zeros(size), Packet(m, Zeros(4)));
            |r| == size && forall k :: 4 + |Encode(m)| <= k < size ==> r[k] == NUL
  {
    hide Encode, EncodeInt;
    var r := Receive(Zeros(size), Packet(m, Zeros(4)));
    var end := 4 + |Encode(m)|;
    PacketHolds(Zeros(size), m, Zeros(4));
    forall k | end <= k < size ensures r[k] == NUL {
      if k < end + 4 {
        assert r[end + (k - end)] == Zeros(4)[k - end];
      }
    }
  }

  /** What the server decodes: the client's tokens in order, and a blank one for each word behind the
      command. */
  lemma TokensReachServer(words: seq<CString>, program: CString, kind: int, size: nat)
    requires FitsBuffer(words, program, kind, size)
    ensures |Packet(ClientMessage(words, program, kind), Zeros(4))| <= size
    ensures var d := Decode(Received(words, program, kind, size), 4);
            d.Decoded? && d.m == Message(kind, Built(words, program, 1) + Phantoms(|words| - 1))
  {
    hide IndexFrom, DecodeTokens, Built, EncodeTokens, Kept, DecodeInt, EncodeInt, Receive, Packet, At, Zeros, Phantoms;
    PacketSize(words, program, kind, size);
    var m := ClientMessage(words, program, kind);
    var r := Received(words, program, kind, size);
    ZerosBehind(m, size);
    PacketHolds(Zeros(size), m, Zeros(4));
    HeaderReadsBack(r, 4, m);
    ClearedKeepsNothing(|words| - 1, Built(words, program, 1));
    SkippedComeBackAsPhantomsIff(r, 12, m.tokens);
  }

  /** The client's words reach the server. Every real message has |words| - 1 skipped tokens in
      front, so this needs the receive buffer to be zero behind the message; a buffer zeroed
      before the read is, when it is large enough. Reading the request stays inside the server's
      memory exactly when its token stream has a slot for each token counted. */
  lemma WordsReachServer(words: seq<CString>, program: CString, kind: int, size: nat, slots: nat)
    requires FitsBuffer(words, program, kind, size)
    ensures |Packet(ClientMessage(words, program, kind), Zeros(4))| <= size
    ensures ReadRequest(Received(words, program, kind, size))
         == Some(Request(kind, PlainWords(words, 1), EnvWords(words, program, 1)))
    ensures RequestStays(Received(words, program, kind, size), slots)
         <==> |words| - 1 + |Built(words, program, 1)| <= slots
  {
    hide Received, Decode, Words, Built, PlainWords, EnvWords, Values, Packet;
    TokensReachServer(words, program, kind, size);
    var built := Built(words, program, 1);
    ClientTerminatorsFit(words, program);
    BuiltWords(words, program, 1);
    WordsConcat(built, Phantoms(|words| - 1), ARG);
    WordsConcat(built, Phantoms(|words| - 1), VAR);
    PhantomWords(|words| - 1, ARG);
    PhantomWords(|words| - 1, VAR);
    assert PlainWords(words, 1) + [] == PlainWords(words, 1);
    assert EnvWords(words, program, 1) + [] == EnvWords(words, program, 1);
  }

  // ----- the argument arrays ---------------------------------------------------------

  /** The closing NULL of a value list fits an array of `length` slots exactly when some token
      is of another kind. */
  lemma {:induction false} TerminatorFitsIff(ts: seq<Token>, kind: Byte)
    ensures |Values(ts, kind)| < |ts| <==> exists i :: 0 <= i < |ts| && ts[i].kind != kind
  {
    if ts != [] {
      TerminatorFitsIff(ts[1..], kind);
      if i :| 0 <= i < |ts| && ts[i].kind != kind {
        if i > 0 {
          assert ts[1..][i - 1].kind != kind;
        }
      }
      if i :| 0 <= i < |ts[1..]| && ts[1..][i].kind != kind {
        assert ts[i + 1].kind != kind;
      }
    }
  }

  /** For a client's message both fit: as decoded, it always ends in a phantom. */
  lemma ClientTerminatorsFit(words: seq<CString>, program: CString)
    requires |words| >= 2
    ensures var ts := Built(words, program, 1) + Phantoms(|words| - 1);
            |Values(ts, ARG)| < |ts| && |Values(ts, VAR)| < |ts|
  {
    var ts := Built(words, program, 1) + Phantoms(|words| - 1);
    assert ts[|ts| - 1].kind == NONE;
    TerminatorFitsIff(ts, ARG);
    TerminatorFitsIff(ts, VAR);
  }

  // ----- two messages in one sweep --------------------------------------------------------

  const FIRST: seq<CString> := ["run", "b", "-e", "PADDING=1234", "-e", "Z=9"]
  const SECOND: seq<CString> := ["run", "a", "-e", "X=1", "-e", "Y=2"]

  /** What the client sends for a run command. */
  function ClientPacket(words: seq<CString>): seq<Byte>
    requires |words| >= 1
  {
    Packet(ClientMessage(words, "dpatch", MSG_TASK_RUN), Zeros(4))
  }

  /** The receive buffer is zeroed once per server loop, not per client. When a longer message
      was read first, a shorter one can pick up a variable of it: here task "a" sent with X and
      Y is read with the Z of the request before it. */
  lemma SecondMessageOfSweepCanLeak()
    ensures |ClientPacket(FIRST)| <= 1024 && |ClientPacket(SECOND)| <= 1024
    ensures ReadRequest(Receive(Receive(Zeros(1024), ClientPacket(FIRST)), ClientPacket(SECOND)))
         == Some(Request(MSG_TASK_RUN, ["a"], ["X=1", "Y=2", "Z=9"]))
  {
    hide IndexFrom, DecodeTokens, At, Words, EncodeTokens, Kept, Built, Receive, ReadRequest, Packet;
    var first, second := FIRST, SECOND;
    var m1, m2 := ClientMessage(first, "dpatch", MSG_TASK_RUN), ClientMessage(second, "dpatch", MSG_TASK_RUN);
    ThreeTokens(first, "b", "PADDING=1234", "Z=9");
    ThreeTokens(second, "a", "X=1", "Y=2");
    var buf := Receive(Zeros(1024), Packet(m1, Zeros(4)));
    LeftBehind(m1, "b", "PADDING=1234", "Z=9");
    assert |Packet(m2, Zeros(4))| == 29;
    StaleVariable(buf, m2, "Z=9");
    var x: CString, y: CString, z: CString := "X=1", "Y=2", "Z=9";
    assert [x, y] + [z] == [x, y, z];
  }

  /** The first of the two arrives as sent. */
  lemma FirstMessageArrives()
    ensures 0 < |ClientPacket(FIRST)| <= 1024 && 0 < |ClientPacket(SECOND)|
    ensures ReadRequest(Receive(Zeros(1024), ClientPacket(FIRST)))
         == Some(Request(MSG_TASK_RUN, ["b"], ["PADDING=1234", "Z=9"]))
  {
    hide IndexFrom, DecodeTokens, At, Words, EncodeTokens, Kept, Built, Receive, ReadRequest, Packet;
    var m := ClientMessage(FIRST, "dpatch", MSG_TASK_RUN);
    ThreeTokens(FIRST, "b", "PADDING=1234", "Z=9");
    ThreeTokens(SECOND, "a", "X=1", "Y=2");
    LeftBehind(m, "b", "PADDING=1234", "Z=9");
    ZerosBehind(m, 1024);
    MessageSize(m, "b", "PADDING=1234", "Z=9");
    Delivered(Zeros(1024), m, Zeros(4));
  }

  lemma MessageSize(m: Message, a: CString, x: CString, z: CString)
    requires |a| == 1 && |x| == 12 && |z| == 3
    requires EncodeTokens(m.tokens) == EncodeToken(Token(ARG, Some(a)))
               + EncodeToken(Token(VAR, Some(x))) + EncodeToken(Token(VAR, Some(z)))
    ensures |Encode(m)| == 30
  {
    hide EncodeTokens, EncodeInt;
  }

  lemma ThreeTokens(words: seq<CString>, a: CString, x: CString, y: CString)
    requires words == ["run", a, "-e", x, "-e", y] && |a| == 1
    ensures var m := ClientMessage(words, "dpatch", MSG_TASK_RUN);
            && |m.tokens| == 8 && |Kept(m.tokens)| == 3
            && EncodeTokens(m.tokens) == EncodeToken(Token(ARG, Some(a)))
                 + EncodeToken(Token(VAR, Some(x))) + EncodeToken(Token(VAR, Some(y)))
            && Words(m.tokens, ARG) == [a] && Words(m.tokens, VAR) == [x, y]
            && |Packet(m, Zeros(4))| == 22 + |a| + |x| + |y|
  {
    hide Built, Kept, EncodeTokens, Words, EncodeInt;
    BuiltThree(words, a, x, y);
    var ta, tx, ty := Token(ARG, Some(a)), Token(VAR, Some(x)), Token(VAR, Some(y));
    ClearedKeepsNothing(5, [ta, tx, ty]);
    EncodeThree(ta, tx, ty);
    WordsThree(a, x, y);
    assert forall t: Token :: !Skipped(t) ==> |EncodeToken(t)| == |t.value.value| + 2;
  }

  lemma BuiltThree(words: seq<CString>, a: CString, x: CString, y: CString)
    requires words == ["run", a, "-e", x, "-e", y] && |a| == 1
    ensures Built(words, "dpatch", 1) == [Token(ARG, Some(a)), Token(VAR, Some(x)), Token(VAR, Some(y))]
  {
    assert words[1] == a && words[2] == "-e" && words[3] == x && words[4] == "-e" && words[5] == y;
    assert Built(words, "dpatch", 6) == [];
    assert Built(words, "dpatch", 4) == [Token(VAR, Some(y))];
    assert Built(words, "dpatch", 2) == [Token(VAR, Some(x)), Token(VAR, Some(y))];
  }

  lemma EncodeThree(a: Token, x: Token, y: Token)
    requires !Skipped(a) && !Skipped(x) && !Skipped(y)
    ensures EncodeTokens([a, x, y]) == EncodeToken(a) + EncodeToken(x) + EncodeToken(y)
  {
    hide Skipped, EncodeToken;
    assert [a, x, y][1..] == [x, y] && [x, y][1..] == [y] && [y][1..] == [];
    assert EncodeTokens([y]) == EncodeToken(y);
    assert EncodeTokens([x, y]) == EncodeToken(x) + EncodeToken(y);
  }

  lemma WordsThree(a: CString, x: CString, y: CString)
    ensures var ts := [Token(ARG, Some(a)), Token(VAR, Some(x)), Token(VAR, Some(y))];
            Words(ts, ARG) == [a] && Words(ts, VAR) == [x, y]
  {
    hide Words;
    var ta, tx, ty := Token(ARG, Some(a)), Token(VAR, Some(x)), Token(VAR, Some(y));
    assert [ta] + [tx, ty] == [ta, tx, ty] && [tx] + [ty] == [tx, ty];
    OneWord(ta);
    OneWord(tx);
    OneWord(ty);
    WordsConcat([tx], [ty], ARG);
    WordsConcat([tx], [ty], VAR);
    WordsConcat([ta], [tx, ty], ARG);
    WordsConcat([ta], [tx, ty], VAR);
  }

  lemma OneWord(t: Token)
    requires t.value.Some?
    ensures Words([t], ARG) == if t.kind == ARG then [t.value.value] else []
    ensures Words([t], VAR) == if t.kind == VAR then [t.value.value] else []
  {
    assert [t][1..] == [];
  }

  lemma LeftBehind(m: Message, a: CString, x: CString, z: CString)
    requires |a| == 1 && |x| == 12 && |z| == 3
    requires EncodeTokens(m.tokens) == EncodeToken(Token(ARG, Some(a)))
               + EncodeToken(Token(VAR, Some(x))) + EncodeToken(Token(VAR, Some(z)))
    ensures |Packet(m, Zeros(4))| == 38
    ensures At(Receive(Zeros(1024), Packet(m, Zeros(4))), 29, EncodeToken(Token(VAR, Some(z))))
    ensures ZeroFrom(Receive(Zeros(1024), Packet(m, Zeros(4))), 34, 4)
  {
    hide EncodeTokens, EncodeInt, At, Receive;
    ThirtyEight(m, a, x, z);
    var buf := Receive(Zeros(1024), Packet(m, Zeros(4)));
    PacketHolds(Zeros(1024), m, Zeros(4));
    AtSplit(buf, 4, EncodeInt(m.kind) + EncodeInt(|m.tokens|), EncodeTokens(m.tokens));
    AtSplit(buf, 12, EncodeToken(Token(ARG, Some(a))) + EncodeToken(Token(VAR, Some(x))),
            EncodeToken(Token(VAR, Some(z))));
    ZerosAt(buf, 34, 4);
  }

  lemma ThirtyEight(m: Message, a: CString, x: CString, z: CString)
    requires |a| == 1 && |x| == 12 && |z| == 3
    requires EncodeTokens(m.tokens) == EncodeToken(Token(ARG, Some(a)))
               + EncodeToken(Token(VAR, Some(x))) + EncodeToken(Token(VAR, Some(z)))
    ensures |Packet(m, Zeros(4))| == 38 && |Encode(m)| == 30
    ensures |EncodeToken(Token(ARG, Some(a))) + EncodeToken(Token(VAR, Some(x)))| == 17
  {
    hide EncodeTokens, EncodeInt;
  }

  // ----- the command line as it is meant -------------------------------------------------------------

  /** What a user puts behind the command word: plain words, and variables behind a flag each. */
  datatype Piece = Plain(word: CString) | Var(word: CString)

  function Typed(ps: seq<Piece>): seq<CString> {
    if ps == [] then []
    else (if ps[0].Plain? then [ps[0].word] else ["-e", ps[0].word]) + Typed(ps[1..])
  }

  function PlainOf(ps: seq<Piece>): seq<CString> {
    if ps == [] then [] else (if ps[0].Plain? then [ps[0].word] else []) + PlainOf(ps[1..])
  }

  function VarsOf(ps: seq<Piece>): seq<CString> {
    if ps == [] then [] else (if ps[0].Var? then [ps[0].word] else []) + VarsOf(ps[1..])
  }

  /** Typed words are taken apart as they were meant, if no plain word is the flag itself; and a flag
      with nothing behind it adds the program's own name to the variables. */
  lemma TypedWords(command: CString, ps: seq<Piece>, program: CString)
    requires forall k :: 0 <= k < |ps| && ps[k].Plain? ==> ps[k].word != "-e"
    ensures var words := [command] + Typed(ps);
            PlainWords(words, 1) == PlainOf(ps) && EnvWords(words, program, 1) == VarsOf(ps)
    ensures var words := [command] + Typed(ps) + ["-e"];
            PlainWords(words, 1) == PlainOf(ps) && EnvWords(words, program, 1) == VarsOf(ps) + [program]
  {
    TypedBehind([command], ps, [], program);
    assert [command] + Typed(ps) + [] == [command] + Typed(ps);
    assert PlainOf(ps) + [] == PlainOf(ps) && VarsOf(ps) + [] == VarsOf(ps);
    TypedBehind([command], ps, ["-e"], program);
  }

  lemma {:induction false} TypedBehind(front: seq<CString>, ps: seq<Piece>, tail: seq<CString>, program: CString)
    requires forall k :: 0 <= k < |ps| && ps[k].Plain? ==> ps[k].word != "-e"
    requires tail == [] || tail == ["-e"]
    ensures var words := front + Typed(ps) + tail;
            && PlainWords(words, |front|) == PlainOf(ps)
            && EnvWords(words, program, |front|) == VarsOf(ps) + (if tail == [] then [] else [program])
    decreases |ps|
  {
    hide PlainWords, EnvWords, WordAt;
    var words := front + Typed(ps) + tail;
    if ps == [] {
      TypedTail(front, tail, program);
      assert words == front + tail;
    } else {
      var one := if ps[0].Plain? then [ps[0].word] else ["-e", ps[0].word];
      assert words == (front + one) + Typed(ps[1..]) + tail;
      assert words[|front|] == one[0] && (ps[0].Var? ==> words[|front| + 1] == one[1]);
      TypedBehind(front + one, ps[1..], tail, program);
      TypedStep(words, |front|, program);
      Regroup(if ps[0].Var? then [ps[0].word] else [], VarsOf(ps[1..]), if tail == [] then [] else [program]);
      assert [] + PlainOf(ps[1..]) == PlainOf(ps[1..]);
      assert [] + EnvWords(words, program, |front| + 1) == EnvWords(words, program, |front| + 1);
    }
  }

  lemma Regroup(a: seq<CString>, b: seq<CString>, c: seq<CString>)
    ensures a + b + c == a + (b + c)
    ensures a == [] ==> a + b == b
  {
  }

  lemma TypedTail(front: seq<CString>, tail: seq<CString>, program: CString)
    requires tail == [] || tail == ["-e"]
    ensures PlainWords(front + tail, |front|) == []
    ensures EnvWords(front + tail, program, |front|) == if tail == [] then [] else [program]
  {
    if tail != [] {
      assert (front + tail)[|front|] == "-e";
    }
  }

  lemma TypedStep(words: seq<CString>, i: nat, program: CString)
    requires i < |words|
    ensures words[i] != "-e" ==> PlainWords(words, i) == [words[i]] + PlainWords(words, i + 1)
                                 && EnvWords(words, program, i) == EnvWords(words, program, i + 1)
    ensures words[i] == "-e" && i + 1 < |words| ==>
              PlainWords(words, i) == PlainWords(words, i + 2)
              && EnvWords(words, program, i) == [words[i + 1]] + EnvWords(words, program, i + 2)
  {
  }

  /** The bytes of "run a": the length 19, message kind 2, two tokens counted, the one argument, and
      the four bytes too many. */
  lemma WireExample()
    ensures ClientPacket(["run", "a"]) == [19 as char, NUL, NUL, NUL, 2 as char, NUL, NUL, NUL, 2 as char, NUL, NUL, NUL,
                                           1 as char, 'a', NUL, NUL, NUL, NUL, NUL]
  {
    hide Built, EncodeTokens, EncodeToken, EncodeInt, Zeros;
    var t := Token(ARG, Some("a"));
    WireTokens();
    ClearedKeepsNothing(1, [t]);
    WireInts();
  }

  lemma WireTokens()
    ensures Built(["run", "a"], "dpatch", 1) == [Token(ARG, Some("a"))]
    ensures EncodeTokens([Token(ARG, Some("a"))]) == [1 as char, 'a', NUL]
    ensures Zeros(4) == [NUL, NUL, NUL, NUL]
  {
    var words: seq<CString>, t := ["run", "a"], Token(ARG, Some("a"));
    assert Built(words, "dpatch", 2) == [];
    assert [t][1..] == [] && EncodeTokens([t]) == EncodeToken(t) + [];
  }

  lemma WireInts()
    ensures EncodeInt(2) == [2 as char, NUL, NUL, NUL] && EncodeInt(19) == [19 as char, NUL, NUL, NUL]
  {
  }
}
