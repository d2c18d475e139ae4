/** The wire format of token streams as functions on byte sequences, and what survives a
    trip over the wire. */
module TokenCodec {
  import opened CBytes

  // Token kinds (ProtocolTokenType) as the byte written to the wire.
  const NONE: Byte := 0 as char
  const ARG: Byte := 1 as char
  const VAR: Byte := 2 as char

  // Message kinds (ProtocolMsgType) the server distinguishes.
  const MSG_TASK_RUN := 2
  const MSG_WORKSPACE_SET := 4

  /** `value` is None for a NULL pointer. */
  datatype Token = Token(kind: Byte, value: Option<CString>)

  datatype Message = Message(kind: int, tokens: seq<Token>)

  /** What memset leaves in a token slot. */
  const CLEARED := Token(NONE, None)

  /** What two zero bytes decode to. */
  const PHANTOM := Token(NONE, Some([]))

  /** The writer leaves these out but still counts them. */
  predicate Skipped(t: Token) {
    t.kind == NONE || t.value.None?
  }

  function Kept(ts: seq<Token>): (k: seq<Token>)
    ensures |k| <= |ts|
  {
    if ts == [] then []
    else if Skipped(ts[0]) then Kept(ts[1..])
    else [ts[0]] + Kept(ts[1..])
  }

  function EncodeToken(t: Token): (b: seq<Byte>)
    requires !Skipped(t)
  {
    [t.kind] + t.value.value + [NUL]
  }

  function EncodeTokens(ts: seq<Token>): seq<Byte> {
    if ts == [] then []
    else if Skipped(ts[0]) then EncodeTokens(ts[1..])
    else EncodeToken(ts[0]) + EncodeTokens(ts[1..])
  }

  function Encode(m: Message): seq<Byte> {
    EncodeInt(m.kind) + EncodeInt(|m.tokens|) + EncodeTokens(m.tokens)
  }

  function Zeros(n: nat): (z: seq<Byte>)
    ensures |z| == n
  {
    seq(n, _ => NUL)
  }

  function Phantoms(n: nat): (ps: seq<Token>)
    ensures |ps| == n
  {
    seq(n, _ => PHANTOM)
  }

  /** The outcome of reading tokens: where the cursor stopped, or a scan for a terminator that
      ran off the buffer. */
  datatype Scan = Overran | Scanned(tokens: seq<Token>, cursor: nat)

  function Prepend(ts: seq<Token>, s: Scan): Scan {
    if s.Overran? then s else Scanned(ts + s.tokens, s.cursor)
  }

  /** A kind byte and a terminated string lie at `cur`. */
  predicate Readable(buf: seq<Byte>, cur: nat) {
    cur + 1 <= |buf| && IndexFrom(buf, NUL, cur + 1) < |buf|
  }

  function TokenAt(buf: seq<Byte>, cur: nat): (t: Token)
    requires Readable(buf, cur)
    ensures t.value.Some?
  {
    Token(buf[cur], Some(buf[cur + 1..IndexFrom(buf, NUL, cur + 1)]))
  }

  /** The offset behind the token at `cur`. */
  function After(buf: seq<Byte>, cur: nat): (next: nat)
    requires Readable(buf, cur)
    ensures cur + 2 <= next <= |buf|
  {
    IndexFrom(buf, NUL, cur + 1) + 1
  }

  /** Reads `n` tokens from `cur` on. */
  function DecodeTokens(buf: seq<Byte>, cur: nat, n: nat): (r: Scan)
    ensures r.Scanned? ==> |r.tokens| == n && cur + 2 * n <= r.cursor
    ensures r.Scanned? && n > 0 ==> r.cursor <= |buf|
    ensures r.Scanned? ==> forall k :: 0 <= k < n ==> r.tokens[k].value.Some?
    decreases n
  {
    if n == 0 then Scanned([], cur)
    else if !Readable(buf, cur) then Overran
    else Prepend([TokenAt(buf, cur)], DecodeTokens(buf, After(buf, cur), n - 1))
  }

  /** Reads `n` more tokens. */
  function Continue(buf: seq<Byte>, s: Scan, n: nat): Scan {
    if s.Overran? then s else Prepend(s.tokens, DecodeTokens(buf, s.cursor, n))
  }

  // ----- the cursor -----------------------------------------------------------------

  lemma PrependTwice(a: seq<Token>, b: seq<Token>, s: Scan)
    ensures Prepend(a, Prepend(b, s)) == Prepend(a + b, s)
    ensures Prepend([], s) == s
  {
    if s.Scanned? {
      assert a + (b + s.tokens) == (a + b) + s.tokens;
      assert [] + s.tokens == s.tokens;
    }
  }

  lemma ContinuePrepended(buf: seq<Byte>, a: seq<Token>, s: Scan, n: nat)
    ensures Continue(buf, Prepend(a, s), n) == Prepend(a, Continue(buf, s, n))
  {
    if s.Scanned? {
      PrependTwice(a, s.tokens, DecodeTokens(buf, s.cursor, n));
    }
  }

  lemma {:induction false} DecodeSplit(buf: seq<Byte>, cur: nat, a: nat, b: nat)
    ensures DecodeTokens(buf, cur, a + b) == Continue(buf, DecodeTokens(buf, cur, a), b)
    decreases a
  {
    hide Readable, TokenAt, After, Prepend, IndexFrom;
    if a == 0 {
      PrependTwice([], [], DecodeTokens(buf, cur, b));
    } else if Readable(buf, cur) {
      DecodeSplit(buf, After(buf, cur), a - 1, b);
      ContinuePrepended(buf, [TokenAt(buf, cur)], DecodeTokens(buf, After(buf, cur), a - 1), b);
    }
  }

  lemma DecodeOne(buf: seq<Byte>, at: nat, t: Token, n: nat)
    requires !Skipped(t) && At(buf, at, EncodeToken(t))
    ensures DecodeTokens(buf, at, 1 + n)
         == Prepend([t], DecodeTokens(buf, at + |EncodeToken(t)|, n))
  {
    var e, v := EncodeToken(t), t.value.value;
    var stop := at + 1 + |v|;
    assert buf[at + 0] == e[0] == t.kind;
    assert buf[at + (1 + |v|)] == e[1 + |v|] == NUL;
    forall j | at + 1 <= j < stop ensures buf[j] == v[j - at - 1] && buf[j] != NUL {
      assert buf[at + (j - at)] == e[j - at];
    }
    IndexFromUnique(buf, NUL, at + 1, stop);
    assert buf[at + 1..stop] == v;
    assert TokenAt(buf, at) == t && After(buf, at) == at + |e|;
  }

  /** Decoding reads the kept tokens back in order and goes on where the writer stopped. */
  lemma {:induction false} DecodeContinues(buf: seq<Byte>, at: nat, ts: seq<Token>, n: nat)
    requires At(buf, at, EncodeTokens(ts))
    ensures DecodeTokens(buf, at, |Kept(ts)| + n)
         == Prepend(Kept(ts), DecodeTokens(buf, at + |EncodeTokens(ts)|, n))
    decreases |ts|
  {
    hide DecodeTokens, IndexFrom, Prepend, At, EncodeToken;
    var end := at + |EncodeTokens(ts)|;
    if ts == [] {
      PrependTwice([], [], DecodeTokens(buf, at, n));
    } else if Skipped(ts[0]) {
      DecodeContinues(buf, at, ts[1..], n);
    } else {
      var first, rest := EncodeToken(ts[0]), EncodeTokens(ts[1..]);
      AtSplit(buf, at, first, rest);
      DecodeContinues(buf, at + |first|, ts[1..], n);
      DecodeOne(buf, at, ts[0], |Kept(ts[1..])| + n);
      PrependTwice([ts[0]], Kept(ts[1..]), DecodeTokens(buf, end, n));
    }
  }

  predicate ZeroFrom(buf: seq<Byte>, at: nat, n: nat) {
    at + n <= |buf| && forall k :: at <= k < at + n ==> buf[k] == NUL
  }

  /** n phantom tokens are read exactly where 2n zero bytes lie. */
  lemma {:induction false} PhantomsIff(buf: seq<Byte>, at: nat, n: nat)
    requires at <= |buf|
    ensures var r := DecodeTokens(buf, at, n);
            && (ZeroFrom(buf, at, 2 * n) ==> r == Scanned(Phantoms(n), at + 2 * n))
            && (r.Scanned? && r.tokens == Phantoms(n) ==> ZeroFrom(buf, at, 2 * n))
    decreases n
  {
    if n > 0 && at + 1 <= |buf| {
      assert Phantoms(n) == [PHANTOM] + Phantoms(n - 1);
      if Readable(buf, at) {
        PhantomAtIff(buf, at);
        PhantomsIff(buf, After(buf, at), n - 1);
        var r, rest := DecodeTokens(buf, at, n), DecodeTokens(buf, After(buf, at), n - 1);
        if rest.Scanned? && r.tokens == Phantoms(n) {
          assert r.tokens[0] == PHANTOM;
          assert r.tokens[1..] == rest.tokens == Phantoms(n - 1);
        }
      }
    }
  }

  lemma PhantomAtIff(buf: seq<Byte>, at: nat)
    requires Readable(buf, at)
    ensures TokenAt(buf, at) == PHANTOM <==> ZeroFrom(buf, at, 2)
    ensures TokenAt(buf, at) == PHANTOM ==> After(buf, at) == at + 2
  {
    var stop := IndexFrom(buf, NUL, at + 1);
    assert TokenAt(buf, at) == PHANTOM <==> buf[at] == NUL && |buf[at + 1..stop]| == 0;
  }

  /** A stream with skipped tokens comes back as its kept tokens followed by one phantom per
      skipped one - exactly when enough zero bytes follow the encoding in the buffer. */
  lemma SkippedComeBackAsPhantomsIff(buf: seq<Byte>, at: nat, ts: seq<Token>)
    requires At(buf, at, EncodeTokens(ts))
    ensures var k := |ts| - |Kept(ts)|;
            var end := at + |EncodeTokens(ts)|;
            ZeroFrom(buf, end, 2 * k)
            <==> DecodeTokens(buf, at, |ts|) == Scanned(Kept(ts) + Phantoms(k), end + 2 * k)
  {
    hide DecodeTokens, IndexFrom, Kept, EncodeTokens, Prepend;
    var k := |ts| - |Kept(ts)|;
    var end := at + |EncodeTokens(ts)|;
    DecodeContinues(buf, at, ts, k);
    PhantomsIff(buf, end, k);
    PrependIff(Kept(ts), DecodeTokens(buf, end, k), Phantoms(k), end + 2 * k);
  }

  lemma PrependIff(a: seq<Token>, s: Scan, b: seq<Token>, cursor: nat)
    ensures Prepend(a, s) == Scanned(a + b, cursor) <==> s == Scanned(b, cursor)
  {
    if s.Scanned? {
      assert (a + s.tokens)[|a|..] == s.tokens && (a + b)[|a|..] == b;
    }
  }

  lemma {:induction false} KeptAll(ts: seq<Token>)
    requires forall i :: 0 <= i < |ts| ==> !Skipped(ts[i])
    ensures Kept(ts) == ts
  {
    if ts != [] {
      KeptAll(ts[1..]);
    }
  }

  // ----- whole messages -------------------------------------------------------------

  /** `protocol_buf_to_tokenstream`: a non-positive count is refused. */
  datatype Decoded = Refused | Overrun | Decoded(m: Message, cursor: nat)

  function Decode(buf: seq<Byte>, at: nat): (d: Decoded)
    ensures d.Decoded? ==> forall k :: 0 <= k < |d.m.tokens| ==> d.m.tokens[k].value.Some?
  {
    if at + 8 > |buf| then Overrun
    else if DecodeInt(buf, at + 4) < 1 then Refused
    else
      var n := DecodeInt(buf, at + 4);
      match DecodeTokens(buf, at + 8, n)
      case Overran => Overrun
      case Scanned(ts, end) => Decoded.Decoded(Message(DecodeInt(buf, at), ts), end)
  }

  ghost predicate Sendable(m: Message) {
    IsInt32(m.kind) && 1 <= |m.tokens| < 0x8000_0000
  }

  lemma HeaderReadsBack(buf: seq<Byte>, at: nat, m: Message)
    requires Sendable(m) && At(buf, at, Encode(m))
    ensures at + 8 <= |buf| && DecodeInt(buf, at) == m.kind && DecodeInt(buf, at + 4) == |m.tokens|
    ensures |Encode(m)| == 8 + |EncodeTokens(m.tokens)|
    ensures At(buf, at + 8, EncodeTokens(m.tokens))
  {
    var kind, count := EncodeInt(m.kind), EncodeInt(|m.tokens|);
    AtSplit(buf, at, kind + count, EncodeTokens(m.tokens));
    AtSplit(buf, at, kind, count);
    IntRoundTrip(buf, at, m.kind);
    IntRoundTrip(buf, at + 4, |m.tokens|);
  }

  /** Serialise then deserialise is the identity when nothing is skipped, wherever the message
      lies and whatever follows it, and both cursors end at the same byte. */
  lemma RoundTrip(buf: seq<Byte>, at: nat, m: Message)
    requires Sendable(m) && At(buf, at, Encode(m))
    requires forall i :: 0 <= i < |m.tokens| ==> !Skipped(m.tokens[i])
    ensures at + 8 <= |buf| && Decode(buf, at) == Decoded.Decoded(m, at + |Encode(m)|)
  {
    HeaderReadsBack(buf, at, m);
    KeptAll(m.tokens);
    DecodeContinues(buf, at + 8, m.tokens, 0);
    DecodeNone(buf, at + |Encode(m)|);
    hide DecodeTokens, IndexFrom, Kept, EncodeTokens;
    assert m.tokens + [] == m.tokens;
  }

  // ----- what the receiver makes of the tokens ------------------------------------------

  /** The values a receiver collects for one token kind, in order. */
  function Values(ts: seq<Token>, kind: Byte): (vs: seq<Option<CString>>)
    ensures |vs| <= |ts|
  {
    if ts == [] then []
    else if ts[0].kind == kind then [ts[0].value] + Values(ts[1..], kind)
    else Values(ts[1..], kind)
  }

  /** The same with NULL values left out. */
  function Words(ts: seq<Token>, kind: Byte): seq<CString> {
    if ts == [] then []
    else if ts[0].kind == kind && ts[0].value.Some? then [ts[0].value.value] + Words(ts[1..], kind)
    else Words(ts[1..], kind)
  }

  lemma {:induction false} WordsConcat(a: seq<Token>, b: seq<Token>, kind: Byte)
    ensures Words(a + b, kind) == Words(a, kind) + Words(b, kind)
  {
    if a == [] {
      assert a + b == b;
    } else {
      assert (a + b)[1..] == a[1..] + b;
      WordsConcat(a[1..], b, kind);
    }
  }

  lemma {:induction false} ValuesConcat(a: seq<Token>, b: seq<Token>, kind: Byte)
    ensures Values(a + b, kind) == Values(a, kind) + Values(b, kind)
  {
    if a == [] {
      assert a + b == b;
    } else {
      assert (a + b)[1..] == a[1..] + b;
      ValuesConcat(a[1..], b, kind);
    }
  }

  lemma {:induction false} PhantomWords(n: nat, kind: Byte)
    requires kind != NONE
    ensures Words(Phantoms(n), kind) == []
  {
    if n > 0 {
      assert Phantoms(n)[1..] == Phantoms(n - 1);
      PhantomWords(n - 1, kind);
    }
  }

  lemma {:induction false} KeptWords(ts: seq<Token>, kind: Byte)
    requires kind != NONE
    ensures Words(Kept(ts), kind) == Words(ts, kind)
  {
    if ts != [] {
      KeptWords(ts[1..], kind);
    }
  }

  lemma {:induction false} DecodedWords(ts: seq<Token>, kind: Byte)
    requires forall k :: 0 <= k < |ts| ==> ts[k].value.Some?
    ensures |Values(ts, kind)| == |Words(ts, kind)|
    ensures forall k :: 0 <= k < |Words(ts, kind)| ==> Values(ts, kind)[k] == Some(Words(ts, kind)[k])
  {
    if ts != [] {
      DecodedWords(ts[1..], kind);
    }
  }

  /** A request as the server sees it after reading and parsing. */
  datatype Request = Malformed | Request(kind: int, args: seq<CString>, vars: seq<CString>)

  /** `protocol_read` followed by `protocol_parse_token_stream` on a receive buffer, which
      starts with the 4-byte length prefix; None when decoding would leave the buffer. */
  function ReadRequest(buf: seq<Byte>): Option<Request> {
    match Decode(buf, 4)
    case Refused => Some(Malformed)
    case Overrun => None
    case Decoded(m, _) => Some(Request(m.kind, Words(m.tokens, ARG), Words(m.tokens, VAR)))
  }

  /** A buffer that holds a header is malformed exactly when the header counts no token. */
  lemma MalformedIff(buf: seq<Byte>)
    ensures ReadRequest(buf) == Some(Malformed) <==> 12 <= |buf| && DecodeInt(buf, 8) <= 0
  {
    hide DecodeTokens, DecodeInt;
  }

  /** Reading a request stays inside the receive buffer, the `slots` of the token stream, and the
      argument arrays of as many cells as there are tokens. */
  predicate RequestStays(buf: seq<Byte>, slots: nat) {
    match Decode(buf, 4)
    case Refused => true
    case Overrun => false
    case Decoded(m, _) =>
      |m.tokens| <= slots && |Values(m.tokens, ARG)| < |m.tokens| && |Values(m.tokens, VAR)| < |m.tokens|
  }

  /** `protocol_send`: the prefix counts four bytes more than prefix and message together, and
      that many are sent, so whatever the sender's buffer holds there travels along. */
  function Packet(m: Message, beyond: seq<Byte>): seq<Byte>
    requires |beyond| == 4
  {
    EncodeInt(4 + |Encode(m)| + 4) + Encode(m) + beyond
  }

  /** `read` puts the received bytes at the front and leaves the rest of the buffer alone. */
  function Receive(buf: seq<Byte>, packet: seq<Byte>): seq<Byte>
    requires |packet| <= |buf|
  {
    packet + buf[|packet|..]
  }

  lemma PacketHolds(buf: seq<Byte>, m: Message, beyond: seq<Byte>)
    requires |beyond| == 4 && |Packet(m, beyond)| <= |buf|
    ensures |Packet(m, beyond)| == 4 + |Encode(m)| + 4
    ensures At(Receive(buf, Packet(m, beyond)), 0, EncodeInt(4 + |Encode(m)| + 4))
    ensures At(Receive(buf, Packet(m, beyond)), 4, Encode(m))
    ensures At(Receive(buf, Packet(m, beyond)), 4 + |Encode(m)|, beyond)
  {
    var p := Packet(m, beyond);
    var r := Receive(buf, p);
    var prefix := EncodeInt(4 + |Encode(m)| + 4);
    assert At(r, 0, p);
    AtSplit(r, 0, prefix + Encode(m), beyond);
    AtSplit(r, 0, prefix, Encode(m));
  }

  /** The length the reader derives from the prefix is the cursor the writer stopped at. */
  lemma FramingAgrees(buf: seq<Byte>, m: Message, beyond: seq<Byte>)
    requires |beyond| == 4 && |Packet(m, beyond)| <= |buf| && IsInt32(|Packet(m, beyond)|)
    ensures DecodeInt(Receive(buf, Packet(m, beyond)), 0) == |Packet(m, beyond)|
    ensures DecodeInt(Receive(buf, Packet(m, beyond)), 0) - 4 == 4 + |Encode(m)|
  {
    PacketHolds(buf, m, beyond);
    IntRoundTrip(Receive(buf, Packet(m, beyond)), 0, 4 + |Encode(m)| + 4);
  }

  /** What the reader makes of the bytes where it looks for the tokens that were skipped. */
  function Leftover(r: seq<Byte>, m: Message): Scan {
    DecodeTokens(r, 4 + |Encode(m)|, |m.tokens| - |Kept(m.tokens)|)
  }

  predicate Harmless(s: Scan) {
    s.Scanned? && forall k :: 0 <= k < |s.tokens| ==> s.tokens[k].kind != ARG && s.tokens[k].kind != VAR
  }

  /** The receiver gets the sender's words exactly when the bytes behind the message, read as the
      skipped tokens, are tokens inside the buffer of which none is an argument or a variable. */
  lemma DeliveredIff(buf: seq<Byte>, m: Message, beyond: seq<Byte>)
    requires Sendable(m) && |beyond| == 4 && |Packet(m, beyond)| <= |buf|
    ensures var r := Receive(buf, Packet(m, beyond));
            ReadRequest(r) == Some(Request(m.kind, Words(m.tokens, ARG), Words(m.tokens, VAR)))
            <==> Harmless(Leftover(r, m))
  {
    hide DecodeTokens, IndexFrom, At, Kept, Words, EncodeTokens, Encode, Receive, ReadRequest, Leftover, Harmless,
      Packet, DecodeInt, EncodeInt;
    var r := Receive(buf, Packet(m, beyond));
    HarmlessIs(r, m);
    PacketHolds(buf, m, beyond);
    HeaderReadsBack(r, 4, m);
    LeftoverFollows(r, m);
    RequestIs(r, m);
    var s := Leftover(r, m);
    if s.Scanned? {
      LeftoverWords(m.tokens, s.tokens, ARG);
      LeftoverWords(m.tokens, s.tokens, VAR);
    }
  }

  lemma HarmlessIs(r: seq<Byte>, m: Message)
    ensures var s := Leftover(r, m);
            Harmless(s) <==> s.Scanned? && (forall k :: 0 <= k < |s.tokens| ==> s.tokens[k].kind != ARG)
                             && (forall k :: 0 <= k < |s.tokens| ==> s.tokens[k].kind != VAR)
    ensures Leftover(r, m).Scanned? ==>
              forall k :: 0 <= k < |Leftover(r, m).tokens| ==> Leftover(r, m).tokens[k].value.Some?
  {
    hide DecodeTokens;
  }

  lemma LeftoverFollows(r: seq<Byte>, m: Message)
    requires At(r, 12, EncodeTokens(m.tokens)) && |Encode(m)| == 8 + |EncodeTokens(m.tokens)|
    ensures DecodeTokens(r, 12, |m.tokens|) == Prepend(Kept(m.tokens), Leftover(r, m))
  {
    hide DecodeTokens, EncodeTokens, Kept, Prepend, Encode;
    DecodeContinues(r, 12, m.tokens, |m.tokens| - |Kept(m.tokens)|);
  }

  /** The request read from a buffer whose header is that of `m`. */
  lemma RequestIs(r: seq<Byte>, m: Message)
    requires 12 <= |r| && |m.tokens| >= 1 && DecodeInt(r, 4) == m.kind && DecodeInt(r, 8) == |m.tokens|
    requires DecodeTokens(r, 12, |m.tokens|) == Prepend(Kept(m.tokens), Leftover(r, m))
    ensures ReadRequest(r) ==
              var s := Leftover(r, m);
              if s.Overran? then None
              else Some(Request(m.kind, Words(Kept(m.tokens) + s.tokens, ARG), Words(Kept(m.tokens) + s.tokens, VAR)))
  {
    hide DecodeTokens, DecodeInt, Kept, Leftover, Words;
  }

  /** Tokens behind the kept ones add a word for each of that kind. */
  lemma LeftoverWords(ts: seq<Token>, more: seq<Token>, kind: Byte)
    requires kind != NONE && forall k :: 0 <= k < |more| ==> more[k].value.Some?
    ensures Words(Kept(ts) + more, kind) == Words(ts, kind) + Words(more, kind)
    ensures Words(Kept(ts) + more, kind) == Words(ts, kind)
            <==> forall k :: 0 <= k < |more| ==> more[k].kind != kind
  {
    hide Words, Kept;
    WordsConcat(Kept(ts), more, kind);
    KeptWords(ts, kind);
    NoWordsIff(more, kind);
    SameLength(Words(ts, kind), Words(more, kind));
  }

  lemma SameLength<T>(a: seq<T>, b: seq<T>)
    ensures a + b == a <==> b == []
  {
    assert |a + b| == |a| + |b|;
  }

  lemma {:induction false} NoWordsIff(ts: seq<Token>, kind: Byte)
    requires forall k :: 0 <= k < |ts| ==> ts[k].value.Some?
    ensures Words(ts, kind) == [] <==> forall k :: 0 <= k < |ts| ==> ts[k].kind != kind
  {
    if ts != [] {
      NoWordsIff(ts[1..], kind);
      assert forall k :: 1 <= k < |ts| ==> ts[k] == ts[1..][k - 1];
    }
  }

  /** In particular when two zero bytes per skipped token follow. */
  lemma Delivered(buf: seq<Byte>, m: Message, beyond: seq<Byte>)
    requires Sendable(m) && |beyond| == 4 && |Packet(m, beyond)| <= |buf|
    requires ZeroFrom(Receive(buf, Packet(m, beyond)), 4 + |Encode(m)|, 2 * (|m.tokens| - |Kept(m.tokens)|))
    ensures ReadRequest(Receive(buf, Packet(m, beyond)))
         == Some(Request(m.kind, Words(m.tokens, ARG), Words(m.tokens, VAR)))
  {
    hide DecodeTokens, IndexFrom, At, Kept, Words, EncodeTokens, ReadRequest, Receive, Encode;
    PhantomsIff(Receive(buf, Packet(m, beyond)), 4 + |Encode(m)|, |m.tokens| - |Kept(m.tokens)|);
    DeliveredIff(buf, m, beyond);
  }

  // ----- a stale buffer ---------------------------------------------------------------

  /** If the receive buffer still holds a VAR token of an earlier, longer message where the
      missing tokens are looked for, the receiver sees a variable nobody sent. */
  lemma StaleVariable(buf: seq<Byte>, m: Message, w: CString)
    requires Sendable(m) && |Packet(m, Zeros(4))| + |w| + 2 <= |buf|
    requires |m.tokens| - |Kept(m.tokens)| >= 3
    requires At(buf, |Packet(m, Zeros(4))|, EncodeToken(Token(VAR, Some(w))))
    requires ZeroFrom(buf, |Packet(m, Zeros(4))| + (|w| + 2), 2 * (|m.tokens| - |Kept(m.tokens)| - 3))
    ensures ReadRequest(Receive(buf, Packet(m, Zeros(4))))
         == Some(Request(m.kind, Words(m.tokens, ARG), Words(m.tokens, VAR) + [w]))
  {
    var p := Packet(m, Zeros(4));
    var r := Receive(buf, p);
    var k := |m.tokens| - |Kept(m.tokens)|;
    PacketHolds(buf, m, Zeros(4));
    HeaderReadsBack(r, 4, m);
    ZerosAt(r, 4 + |Encode(m)|, 4);
    OverlayKeepsRest(buf, p, EncodeToken(Token(VAR, Some(w))), 2 * (k - 3));
    hide *;
    StaleDecode(r, 12, m.tokens, w, k);
    StaleRequest(r, m, Kept(m.tokens) + StaleTokens(w, k));
    StaleWords(m.tokens, w, k, ARG);
    StaleWords(m.tokens, w, k, VAR);
  }

  lemma StaleDecode(r: seq<Byte>, at: nat, ts: seq<Token>, w: CString, k: nat)
    requires k == |ts| - |Kept(ts)| >= 3
    requires At(r, at, EncodeTokens(ts))
    requires var end := at + |EncodeTokens(ts)|;
             && ZeroFrom(r, end, 4) && At(r, end + 4, EncodeToken(Token(VAR, Some(w))))
             && ZeroFrom(r, end + 4 + (|w| + 2), 2 * (k - 3))
    ensures var s := DecodeTokens(r, at, |ts|); s.Scanned? && s.tokens == Kept(ts) + StaleTokens(w, k)
  {
    hide DecodeTokens, IndexFrom, EncodeTokens, Kept, At, ZeroFrom;
    StaleTail(r, at + |EncodeTokens(ts)|, w, k);
    DecodeContinues(r, at, ts, k);
  }

  lemma StaleRequest(r: seq<Byte>, m: Message, ts: seq<Token>)
    requires 12 <= |r| && |m.tokens| >= 1
    requires DecodeInt(r, 4) == m.kind && DecodeInt(r, 8) == |m.tokens|
    requires DecodeTokens(r, 12, |m.tokens|).Scanned? && DecodeTokens(r, 12, |m.tokens|).tokens == ts
    ensures ReadRequest(r) == Some(Request(m.kind, Words(ts, ARG), Words(ts, VAR)))
  {
  }

  lemma ZerosAt(buf: seq<Byte>, at: nat, n: nat)
    requires At(buf, at, Zeros(n))
    ensures ZeroFrom(buf, at, n)
  {
    forall j | at <= j < at + n ensures buf[j] == NUL {
      assert buf[at + (j - at)] == Zeros(n)[j - at];
    }
  }

  lemma OverlayKeepsRest(buf: seq<Byte>, p: seq<Byte>, w: seq<Byte>, n: nat)
    requires At(buf, |p|, w) && ZeroFrom(buf, |p| + |w|, n)
    ensures At(Receive(buf, p), |p|, w) && ZeroFrom(Receive(buf, p), |p| + |w|, n)
  {
    var r := Receive(buf, p);
    assert forall j :: |p| <= j < |r| ==> r[j] == buf[j];
  }

  lemma StaleWords(ts: seq<Token>, w: CString, k: nat, kind: Byte)
    requires k >= 3 && (kind == ARG || kind == VAR)
    ensures Words(Kept(ts) + StaleTokens(w, k), kind)
         == if kind == VAR then Words(ts, kind) + [w] else Words(ts, kind)
  {
    var stale := [Token(VAR, Some(w))];
    KeptWords(ts, kind);
    WordsConcat(Kept(ts), StaleTokens(w, k), kind);
    WordsConcat(Phantoms(2) + stale, Phantoms(k - 3), kind);
    WordsConcat(Phantoms(2), stale, kind);
    PhantomWords(2, kind);
    PhantomWords(k - 3, kind);
    assert Words(stale, kind) == if kind == VAR then [w] else [];
  }

  function StaleTokens(w: CString, k: nat): seq<Token>
    requires k >= 3
  {
    Phantoms(2) + [Token(VAR, Some(w))] + Phantoms(k - 3)
  }

  lemma StaleTail(r: seq<Byte>, end: nat, w: CString, k: nat)
    requires k >= 3 && ZeroFrom(r, end, 4)
    requires At(r, end + 4, EncodeToken(Token(VAR, Some(w))))
    requires ZeroFrom(r, end + 4 + (|w| + 2), 2 * (k - 3))
    ensures var s := DecodeTokens(r, end, k); s.Scanned? && s.tokens == StaleTokens(w, k)
  {
    hide IndexFrom, DecodeTokens, At;
    var at, stale := end + 4, Token(VAR, Some(w));
    DecodeZeros(r, end, 2, k - 2);
    DecodeOne(r, at, stale, k - 3);
    DecodeZeros(r, at + |w| + 2, k - 3, 0);
    DecodeNone(r, at + |w| + 2 + 2 * (k - 3));
    assert Phantoms(2) + ([stale] + (Phantoms(k - 3) + [])) == StaleTokens(w, k);
  }

  lemma DecodeNone(buf: seq<Byte>, cur: nat)
    ensures DecodeTokens(buf, cur, 0) == Scanned([], cur)
  {
  }

  lemma DecodeZeros(buf: seq<Byte>, at: nat, n: nat, more: nat)
    requires ZeroFrom(buf, at, 2 * n)
    ensures DecodeTokens(buf, at, n + more) == Prepend(Phantoms(n), DecodeTokens(buf, at + 2 * n, more))
  {
    PhantomsIff(buf, at, n);
    DecodeSplit(buf, at, n, more);
  }
}
