/** The token stream object and the loops that move it to and from a byte buffer. */
module TokenStreams {
  import opened CBytes
  import opened TokenCodec

  lemma {:induction false} EncodeConcat(a: seq<Token>, b: seq<Token>)
    ensures EncodeTokens(a + b) == EncodeTokens(a) + EncodeTokens(b)
  {
    if a == [] {
      assert a + b == b;
    } else {
      assert (a + b)[1..] == a[1..] + b;
      EncodeConcat(a[1..], b);
    }
  }

  lemma EncodePrefix(ts: seq<Token>, i: nat)
    requires i < |ts|
    ensures EncodeTokens(ts[..i + 1])
         == EncodeTokens(ts[..i]) + (if Skipped(ts[i]) then [] else EncodeToken(ts[i]))
    ensures |EncodeTokens(ts[..i + 1])| <= |EncodeTokens(ts)|
  {
    assert ts[..i + 1] == ts[..i] + [ts[i]];
    EncodeConcat(ts[..i], [ts[i]]);
    assert [ts[i]][1..] == [];
    assert ts == ts[..i + 1] + ts[i + 1..];
    EncodeConcat(ts[..i + 1], ts[i + 1..]);
  }

  /** A token of kind NONE or without a value leaves no byte on the wire; any other leaves its kind, its
      value and a NUL, where it stands in the stream. */
  lemma TokenOnWire(a: seq<Token>, t: Token, b: seq<Token>)
    ensures EncodeTokens(a + [t] + b) ==
              if t.kind == NONE || t.value.None? then EncodeTokens(a) + EncodeTokens(b)
              else EncodeTokens(a) + ([t.kind] + t.value.value + [NUL]) + EncodeTokens(b)
  {
    hide EncodeTokens;
    EncodeConcat(a + [t], b);
    EncodeConcat(a, [t]);
    OneOnWire(t);
    assert EncodeTokens(a) + [] == EncodeTokens(a);
  }

  lemma OneOnWire(t: Token)
    ensures EncodeTokens([t]) == if t.kind == NONE || t.value.None? then [] else [t.kind] + t.value.value + [NUL]
  {
    assert [t][1..] == [];
    if !Skipped(t) {
      assert EncodeToken(t) + [] == EncodeToken(t);
    }
  }

  /** Everything outside [from, to) is as it was. */
  ghost predicate SameOutside(before: seq<char>, after: seq<char>, from: nat, to: nat) {
    |after| == |before| && forall k :: 0 <= k < |before| && !(from <= k < to) ==> after[k] == before[k]
  }

  method WriteInt(buf: array<Byte>, at: nat, n: int)
    requires at + 4 <= buf.Length
    modifies buf
    ensures At(buf[..], at, EncodeInt(n)) && SameOutside(old(buf[..]), buf[..], at, at + 4)
  {
    var b := EncodeInt(n);
    buf[at], buf[at + 1], buf[at + 2], buf[at + 3] := b[0], b[1], b[2], b[3];
  }

  class TokenStream {
    const tokens: array<Token>
    var kind: int
    var length: nat

    ghost predicate Valid()
      reads this
    {
      length <= tokens.Length
    }

    ghost function Contents(): Message
      reads this, tokens
      requires Valid()
    {
      Message(kind, tokens[..length])
    }

    constructor (capacity: nat)
      ensures Valid() && fresh(tokens) && tokens.Length == capacity
      ensures length == 0 && forall k :: 0 <= k < capacity ==> tokens[k] == CLEARED
    {
      tokens := new Token[capacity](_ => CLEARED);
      kind, length := 0, 0;
    }

    /** Clears the slots in use, and only those. */
    method Reset()
      requires Valid()
      modifies this`length, tokens
      ensures Valid() && length == 0
      ensures forall k :: 0 <= k < tokens.Length ==>
                tokens[k] == if k < old(length) then CLEARED else old(tokens[k])
    {
      forall k | 0 <= k < length {
        tokens[k] := CLEARED;
      }
      length := 0;
    }

    method AddToken(kind: Byte, value: Option<CString>)
      requires Valid() && length < tokens.Length
      modifies this`length, tokens
      ensures Valid() && tokens[..length] == old(tokens[..length]) + [Token(kind, value)]
      ensures forall k :: length <= k < tokens.Length ==> tokens[k] == old(tokens[k])
    {
      tokens[length] := Token(kind, value);
      length := length + 1;
    }

    /** Copies one token with its terminator and advances the cursor. */
    method PutToken(t: Token, buf: array<Byte>, start: nat) returns (cur: nat)
      requires !Skipped(t) && start + |EncodeToken(t)| <= buf.Length
      modifies buf
      ensures cur == start + |EncodeToken(t)|
      ensures At(buf[..], start, EncodeToken(t)) && SameOutside(old(buf[..]), buf[..], start, cur)
    {
      buf[start] := t.kind;
      cur := start + 1;
      var value := t.value.value;
      var c := 0;
      while c < |value|
        invariant 0 <= c <= |value|
        invariant buf[start] == t.kind
        invariant forall k :: 0 <= k < c ==> buf[cur + k] == value[k]
        invariant SameOutside(old(buf[..]), buf[..], start, cur + c)
      {
        buf[cur + c] := value[c];
        c := c + 1;
      }
      buf[cur + c] := NUL;
      cur := cur + c + 1;
      assert forall k :: 1 <= k <= |value| ==> buf[start + k] == value[k - 1] == EncodeToken(t)[k];
    }

    /** `protocol_tokenstream_to_buf`: writes the encoding at `start`, touches nothing else and
        returns the offset after it. */
    method ToBuf(buf: array<Byte>, start: nat) returns (cur: nat)
      requires Valid() && start + |Encode(Contents())| <= buf.Length
      modifies buf
      ensures cur == start + |Encode(Contents())|
      ensures At(buf[..], start, Encode(Contents()))
      ensures SameOutside(old(buf[..]), buf[..], start, cur)
    {
      hide EncodeTokens, At, EncodeInt, EncodeToken, SameOutside, Skipped;
      ghost var ts, was := tokens[..length], buf[..];
      ghost var header := EncodeInt(kind) + EncodeInt(length);
      assert Encode(Contents()) == header + EncodeTokens(ts);
      WriteHeader(buf, start);
      cur := start + 8;
      NothingEncoded(buf[..], cur, ts);
      for i := 0 to length
        invariant tokens[..length] == ts && |buf[..]| == |was|
        invariant cur == start + 8 + |EncodeTokens(ts[..i])|
        invariant At(buf[..], start, header) && At(buf[..], start + 8, EncodeTokens(ts[..i]))
        invariant SameOutside(was, buf[..], start, cur)
      {
        var token := tokens[i];
        EncodePrefix(ts, i);
        SkippedMeans(token);
        if token.kind == NONE || token.value.None? {
          assert EncodeTokens(ts[..i]) + [] == EncodeTokens(ts[..i]);
          continue;
        }
        ghost var before := buf[..];
        cur := PutToken(token, buf, cur);
        Appended(before, buf[..], start, header, EncodeTokens(ts[..i]), EncodeToken(token));
        OutsideTwice(was, before, buf[..], start, start + 8 + |EncodeTokens(ts[..i])|, cur);
      }
      assert ts[..length] == ts;
      AtSplit(buf[..], start, header, EncodeTokens(ts));
    }

    /** The message kind and the count. */
    method WriteHeader(buf: array<Byte>, start: nat)
      requires Valid() && start + 8 <= buf.Length
      modifies buf
      ensures At(buf[..], start, EncodeInt(kind) + EncodeInt(length))
      ensures SameOutside(old(buf[..]), buf[..], start, start + 8)
    {
      hide EncodeInt;
      WriteInt(buf, start, kind);
      WriteInt(buf, start + 4, length);
      AtSplit(buf[..], start, EncodeInt(kind), EncodeInt(length));
    }

    /** Reads one token: its kind and the string behind it, up to the terminator. Not inside when
        either is looked for behind the end of the buffer. */
    method GetToken(buf: array<Byte>, at: nat, ghost bytes: seq<Byte>)
      returns (inside: bool, token: Token, cur: nat)
      requires bytes == buf[..]
      ensures inside <==> Readable(bytes, at)
      ensures inside ==> token == TokenAt(bytes, at) && cur == After(bytes, at)
    {
      token, cur := CLEARED, at;
      if at >= buf.Length {
        return false, token, cur;
      }
      var tokenKind := buf[at];
      cur := at + 1;
      ghost var stop := IndexFrom(bytes, NUL, cur);
      hide IndexFrom;
      var c := 0;
      while cur + c < buf.Length && buf[cur + c] != NUL
        invariant 0 <= c && cur + c <= stop
        decreases stop - (cur + c)
      {
        c := c + 1;
      }
      if cur + c >= buf.Length {
        return false, token, cur;
      }
      assert cur + c == stop && buf[cur..cur + c] == bytes[cur..stop];
      token := Token(tokenKind, Some(buf[cur..cur + c]));
      cur := cur + c + 1;
      inside := true;
    }

    /** Fills the first `length` slots with the tokens read from `at` on. */
    method GetTokens(buf: array<Byte>, at: nat) returns (inside: bool)
      requires Valid()
      modifies tokens
      ensures inside <==> DecodeTokens(buf[..], at, length).Scanned?
      ensures inside ==> tokens[..length] == DecodeTokens(buf[..], at, length).tokens
    {
      hide DecodeTokens, IndexFrom, Prepend, Readable, TokenAt, After;
      ghost var bytes := buf[..];
      ghost var all := DecodeTokens(bytes, at, length);
      PrependTwice([], [], all);
      var cur := at;
      for i := 0 to length
        invariant buf[..] == bytes
        invariant all == Prepend(tokens[..i], DecodeTokens(bytes, cur, length - i))
      {
        ReadStep(bytes, cur, length - i, tokens[..i], all);
        ghost var done := tokens[..i];
        var more, token, next := GetToken(buf, cur, bytes);
        if !more {
          return false;
        }
        tokens[i], cur := token, next;
        assert tokens[..i + 1] == done + [token];
      }
      ReadEnd(bytes, cur, tokens[..length], all);
      inside := true;
    }

    /** `protocol_buf_to_tokenstream`. Not inside when the buffer ends within the header or a token,
        or when the header counts more tokens than the stream has slots for. */
    method FromBuf(buf: array<Byte>, start: nat) returns (inside: bool, status: int)
      requires Valid()
      modifies this, tokens
      ensures inside <==> match Decode(buf[..], start)
                          case Refused => true
                          case Overrun => false
                          case Decoded(m, _) => |m.tokens| <= tokens.Length
      ensures Valid()
      ensures inside ==>
                match Decode(buf[..], start)
                case Decoded(m, _) => status == 0 && Contents() == m
                case _ => status == -1 && kind == old(kind) && length == old(length)
                          && tokens[..] == old(tokens[..])
    {
      hide DecodeTokens, IndexFrom, DecodeInt;
      ghost var bytes := buf[..];
      inside, status := true, -1;
      if start + 8 > buf.Length {
        return false, status;
      }
      var tokenLen := DecodeInt(buf[..], start + 4);
      if tokenLen < 1 {
        return;
      }
      if tokenLen > tokens.Length {
        return false, status;
      }
      kind := DecodeInt(buf[..], start);
      length := tokenLen;
      forall k | 0 <= k < length {
        tokens[k] := CLEARED;
      }
      assert buf[..] == bytes;
      inside := GetTokens(buf, start + 8);
      status := 0;
    }

    /** `protocol_parse_token_stream`: argument and variable values, each list closed by NULL. Not
        inside when a value or a NULL falls behind the end of its array. */
    method Parse(args: array<Option<CString>>, vars: array<Option<CString>>)
      returns (inside: bool, msgKind: int)
      requires Valid() && args != vars
      modifies args, vars
      ensures inside <==> |Values(tokens[..length], ARG)| < args.Length && |Values(tokens[..length], VAR)| < vars.Length
      ensures msgKind == kind
      ensures inside ==> var vs := Values(tokens[..length], ARG); args[..|vs| + 1] == vs + [None]
      ensures inside ==> var vs := Values(tokens[..length], VAR); vars[..|vs| + 1] == vs + [None]
    {
      hide Values;
      var argc, varc := 0, 0;
      msgKind := kind;
      ghost var ts := tokens[..length];
      NoValues(ts);
      for i := 0 to length
        invariant argc <= args.Length && varc <= vars.Length
        invariant args[..argc] == Values(ts[..i], ARG) && vars[..varc] == Values(ts[..i], VAR)
      {
        var token := tokens[i];
        ValuesPrefix(ts, i, ARG);
        ValuesPrefix(ts, i, VAR);
        if token.kind == ARG {
          if argc >= args.Length {
            return false, msgKind;
          }
          args[argc] := token.value;
          argc := argc + 1;
        } else if token.kind == VAR {
          if varc >= vars.Length {
            return false, msgKind;
          }
          vars[varc] := token.value;
          varc := varc + 1;
        }
      }
      assert ts[..length] == ts;
      if argc >= args.Length || varc >= vars.Length {
        return false, msgKind;
      }
      args[argc] := None;
      vars[varc] := None;
      inside := true;
    }

    /** `protocol_send` up to the socket: returns how many bytes are handed to it. */
    method Send(buf: array<Byte>) returns (n: nat)
      requires Valid() && 4 + |Encode(Contents())| + 4 <= buf.Length
      modifies buf
      ensures n == 4 + |Encode(Contents())| + 4
      ensures buf[..n] == Packet(Contents(), old(buf[n - 4..n]))
      ensures SameOutside(old(buf[..]), buf[..], 0, n - 4)
    {
      var cur := ToBuf(buf, 4);
      n := cur + 4;
      ghost var before := buf[..];
      WriteInt(buf, 0, n);
      AtKept(before, buf[..], 4, Encode(Contents()), 0, 4);
      AtSplit(buf[..], 0, EncodeInt(n), Encode(Contents()));
      AtIsSlice(buf[..], 0, EncodeInt(n) + Encode(Contents()));
      assert buf[..n] == buf[..n - 4] + buf[n - 4..n];
      assert buf[..][0..n - 4] == buf[..n - 4];
      assert buf[n - 4..n] == old(buf[n - 4..n]);
    }

    /** `protocol_read`: decodes the message behind the length prefix. */
    method Read(buf: array<Byte>) returns (inside: bool, status: int)
      requires Valid()
      modifies this, tokens
      ensures Valid()
      ensures inside <==> match Decode(buf[..], 4)
                          case Refused => true
                          case Overrun => false
                          case Decoded(m, _) => |m.tokens| <= tokens.Length
      ensures inside ==> (status == 0 <==> Decode(buf[..], 4).Decoded?)
      ensures inside && status == 0 ==> Contents() == Decode(buf[..], 4).m
    {
      inside, status := FromBuf(buf, 4);
      if status != 0 {
        status := -1;
      }
    }

    /** What the server does first with a packet: reads it and collects its arguments and variables
        in arrays of as many cells as there are tokens. None when any of it leaves its memory. */
    method Request(buf: array<Byte>) returns (req: Option<TokenCodec.Request>)
      requires Valid()
      modifies this, tokens
      ensures Valid()
      ensures req.Some? <==> RequestStays(buf[..], tokens.Length)
      ensures req.Some? ==> req == ReadRequest(buf[..])
    {
      hide Decode, Values, Words;
      ghost var bytes := buf[..];
      var inside, status := Read(buf);
      if !inside {
        return None;
      }
      if status != 0 {
        return Some(Malformed);
      }
      assert Decode(bytes, 4).m == Contents();
      var args, vars := new Option<CString>[length], new Option<CString>[length];
      var msgKind;
      inside, msgKind := Parse(args, vars);
      if !inside {
        return None;
      }
      DecodedWords(Contents().tokens, ARG);
      DecodedWords(Contents().tokens, VAR);
      var argWords := Strings(args, Words(Contents().tokens, ARG));
      var varWords := Strings(vars, Words(Contents().tokens, VAR));
      req := Some(TokenCodec.Request(msgKind, argWords, varWords));
    }

    /** The strings of an array up to its NULL. */
    method Strings(a: array<Option<CString>>, ghost words: seq<CString>) returns (s: seq<CString>)
      requires |words| < a.Length && a[|words|] == None
      requires forall k :: 0 <= k < |words| ==> a[k] == Some(words[k])
      ensures s == words
    {
      s := [];
      while a[|s|].Some?
        invariant |s| <= |words| && s == words[..|s|]
        decreases |words| - |s|
      {
        s := s + [a[|s|].value];
      }
    }
  }

  lemma NothingEncoded(buf: seq<char>, at: nat, ts: seq<Token>)
    requires at <= |buf|
    ensures EncodeTokens(ts[..0]) == [] && At(buf, at, EncodeTokens(ts[..0]))
  {
    assert ts[..0] == [];
  }

  lemma SkippedMeans(t: Token)
    ensures Skipped(t) <==> t.kind == NONE || t.value.None?
  {
  }

  lemma OutsideTwice(a: seq<char>, b: seq<char>, c: seq<char>, from: nat, mid: nat, to: nat)
    requires from <= mid <= to && SameOutside(a, b, from, mid) && SameOutside(b, c, mid, to)
    ensures SameOutside(a, c, from, to)
  {
  }

  /** The next token to read, if there is one inside the buffer. */
  lemma ReadStep(buf: seq<Byte>, cur: nat, n: nat, done: seq<Token>, all: Scan)
    requires n > 0 && all == Prepend(done, DecodeTokens(buf, cur, n))
    ensures !Readable(buf, cur) ==> all.Overran?
    ensures Readable(buf, cur) ==>
              all == Prepend(done + [TokenAt(buf, cur)], DecodeTokens(buf, After(buf, cur), n - 1))
  {
    hide Readable;
    if Readable(buf, cur) {
      PrependTwice(done, [TokenAt(buf, cur)], DecodeTokens(buf, After(buf, cur), n - 1));
    }
  }

  lemma ReadEnd(buf: seq<Byte>, cur: nat, done: seq<Token>, all: Scan)
    requires all == Prepend(done, DecodeTokens(buf, cur, 0))
    ensures all == Scanned(done, cur)
  {
    assert done + [] == done;
  }

  /** Bytes written elsewhere leave a stretch in place. */
  lemma AtKept(before: seq<char>, after: seq<char>, at: nat, w: seq<char>, from: nat, to: nat)
    requires At(before, at, w) && SameOutside(before, after, from, to)
    requires at + |w| <= from || to <= at
    ensures At(after, at, w)
  {
  }

  /** Writing `w` behind a header and a body extends the body. */
  lemma Appended(before: seq<char>, after: seq<char>, start: nat, header: seq<char>,
                 body: seq<char>, w: seq<char>)
    requires |header| == 8 && At(before, start, header) && At(before, start + 8, body)
    requires var from := start + 8 + |body|;
             At(after, from, w) && SameOutside(before, after, from, from + |w|)
    ensures At(after, start, header) && At(after, start + 8, body + w)
  {
    var from := start + 8 + |body|;
    AtKept(before, after, start, header, from, from + |w|);
    AtKept(before, after, start + 8, body, from, from + |w|);
    AtSplit(after, start + 8, body, w);
  }

  lemma NoValues(ts: seq<Token>)
    ensures Values(ts[..0], ARG) == [] && Values(ts[..0], VAR) == []
  {
  }

  lemma ValuesPrefix(ts: seq<Token>, i: nat, kind: Byte)
    requires i < |ts|
    ensures Values(ts[..i + 1], kind)
         == Values(ts[..i], kind) + (if ts[i].kind == kind then [ts[i].value] else [])
    ensures |Values(ts[..i + 1], kind)| <= |Values(ts, kind)|
  {
    assert ts[..i + 1] == ts[..i] + [ts[i]];
    ValuesConcat(ts[..i], [ts[i]], kind);
    assert [ts[i]][1..] == [];
    assert ts == ts[..i + 1] + ts[i + 1..];
    ValuesConcat(ts[..i + 1], ts[i + 1..], kind);
  }
}
