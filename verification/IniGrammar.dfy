/** The workspace format as a grammar of blocks: an entry line with the indented lines below
    it is one entry. The line machine is proved to make exactly the grammar's calls, and its
    three ways of ending are characterised. */
module IniGrammar {
  import opened CBytes
  import opened IniMachine

  // ----- the grammar -------------------------------------------------------------------

  /** The texts of the continuation lines at the front. */
  function RunTexts(ks: seq<LineKind>): seq<string> {
    if ks != [] && ks[0].Continuation? then [ks[0].text] + RunTexts(ks[1..]) else []
  }

  /** The lines behind them. */
  function AfterRun(ks: seq<LineKind>): (rest: seq<LineKind>)
    ensures |rest| <= |ks|
  {
    if ks != [] && ks[0].Continuation? then AfterRun(ks[1..]) else ks
  }

  /** The pieces with a newline between each two. */
  function Lined(pieces: seq<string>): string {
    if pieces == [] then ""
    else if |pieces| == 1 then pieces[0]
    else pieces[0] + "\n" + Lined(pieces[1..])
  }

  /** A value: the rest of the entry line and the texts below it, one per line; an empty rest
      adds nothing. */
  function ValueOf(first: string, texts: seq<string>): string {
    if first == "" then Lined(texts) else Lined([first] + texts)
  }

  /** The entries of a file in order, given the section in force at its start. */
  function Entries(section: string, ks: seq<LineKind>): seq<Call>
    decreases |ks|, 0
  {
    if ks == [] then []
    else
      match ks[0]
      case HeaderLine(name) => Entries(Trim(name), ks[1..])
      case EntryLine(key, rest) =>
        var value := ValueOf(Trim(rest), RunTexts(ks[1..]));
        EntriesAfter(section, Call(section, Trim(key), value), AfterRun(ks[1..]))
      case _ => Entries(section, ks[1..])
  }

  /** An entry and what follows its block; an entry cut off by a blank tail is lost. */
  function EntriesAfter(section: string, entry: Call, rest: seq<LineKind>): seq<Call>
    decreases |rest|, 1
  {
    if rest == [] then [entry]
    else if rest[0].BlankTail? then Entries(section, rest[1..])
    else [entry] + Entries(section, rest)
  }

  /** How reading the lines ends, block by block. */
  function Verdict(ks: seq<LineKind>): Status
    decreases |ks|, 0
  {
    if ks == [] then Ok
    else
      match ks[0]
      case HeaderLine(name) =>
        if BlankOnly(name) || |Trim(name)| >= SECTION_SIZE then Fault else Verdict(ks[1..])
      case EntryLine(key, rest) =>
        if |Trim(key)| >= KEY_SIZE || BlankOnly(rest)
           || |ValueOf(Trim(rest), RunTexts(ks[1..]))| >= VALUE_SIZE then Fault
        else VerdictAfter(AfterRun(ks[1..]))
      case Continuation(_) => Invalid
      case BlankLine => Invalid
      case BlankTail => Invalid
      case _ => Verdict(ks[1..])
  }

  function VerdictAfter(rest: seq<LineKind>): Status
    decreases |rest|, 1
  {
    if rest == [] then Ok
    else if rest[0].CommentLine? || rest[0].BlankLine? then Fault
    else if rest[0].BlankTail? then Verdict(rest[1..])
    else Verdict(rest)
  }

  // ----- the machine refines the grammar ---------------------------------------------------

  function Accumulated(value: string, texts: seq<string>): string
    decreases |texts|
  {
    if texts == [] then value else Accumulated(Join(value, texts[0]), texts[1..])
  }

  lemma {:induction false} AccumulatedIsValueOf(first: string, texts: seq<string>)
    requires forall i :: 0 <= i < |texts| ==> texts[i] != ""
    ensures Accumulated(first, texts) == ValueOf(first, texts)
    decreases |texts|
  {
    hide Lined;
    if texts == [] {
      LinedOne(first);
      assert [first] + texts == [first];
    } else {
      AccumulatedIsValueOf(Join(first, texts[0]), texts[1..]);
      LinedNext(first, texts);
      hide ValueOf, Join;
    }
  }

  lemma LinedOne(s: string)
    ensures Lined([s]) == s && Lined([]) == ""
  {
  }

  /** Joining a piece to the value is one piece more. */
  lemma LinedNext(first: string, texts: seq<string>)
    requires texts != [] && texts[0] != ""
    ensures ValueOf(Join(first, texts[0]), texts[1..]) == ValueOf(first, texts)
  {
    hide Lined;
    assert texts == [texts[0]] + texts[1..];
    if first != "" {
      LinedHead(first, texts[0], texts[1..]);
      assert [first] + texts == [first, texts[0]] + texts[1..];
    }
  }

  lemma LinedHead(a: string, b: string, rest: seq<string>)
    ensures Lined([a + "\n" + b] + rest) == Lined([a, b] + rest)
  {
    var l, m := [a + "\n" + b] + rest, [a, b] + rest;
    assert l[1..] == rest && m[1..] == [b] + rest && ([b] + rest)[1..] == rest;
    if rest == [] {
      assert Lined(m) == a + "\n" + Lined([b]);
    } else {
      assert Lined(m) == a + "\n" + (b + "\n" + Lined(rest));
      assert a + "\n" + (b + "\n" + Lined(rest)) == (a + "\n" + b) + "\n" + Lined(rest);
    }
  }

  lemma {:induction false} AccumulatedGrows(value: string, texts: seq<string>)
    ensures |Accumulated(value, texts)| >= |value|
    decreases |texts|
  {
    if texts != [] {
      AccumulatedGrows(Join(value, texts[0]), texts[1..]);
    }
  }

  lemma PrecededTwice(a: seq<Call>, b: seq<Call>, o: Outcome)
    ensures Preceded(a, Preceded(b, o)) == Preceded(a + b, o)
    ensures Preceded([], o) == o
    ensures o.status == Ok ==> ParseCalls(Preceded(a, o)) == a + ParseCalls(o)
  {
    assert a + (b + o.calls) == (a + b) + o.calls;
    assert [] + o.calls == o.calls;
    assert (a + o.calls) + Flush(o.last) == a + (o.calls + Flush(o.last));
  }

  function Open(section: string, key: string, value: string): State {
    State(section, Some(Pending(key, value)))
  }

  /** Reading a run of continuations extends the open value by their texts. */
  lemma {:induction false} ReadRun(section: string, key: string, value: string, ks: seq<LineKind>)
    requires |value| < VALUE_SIZE
    ensures var whole := Accumulated(value, RunTexts(ks));
            if |whole| >= VALUE_SIZE then Read(Open(section, key, value), ks).status == Fault
            else Read(Open(section, key, value), ks) == Read(Open(section, key, whole), AfterRun(ks))
    decreases |ks|
  {
    if ks != [] && ks[0].Continuation? {
      var next := Join(value, ks[0].text);
      ContinueOpen(section, key, value, ks);
      AccumulatedGrows(next, RunTexts(ks[1..]));
      hide Join, Read, StepKind;
      if |next| < VALUE_SIZE {
        ReadRun(section, key, next, ks[1..]);
      }
    }
  }

  lemma ContinueOpen(section: string, key: string, value: string, ks: seq<LineKind>)
    requires ks != [] && ks[0].Continuation?
    ensures var next := Join(value, ks[0].text);
            if |next| >= VALUE_SIZE then Read(Open(section, key, value), ks).status == Fault
            else Read(Open(section, key, value), ks) == Read(Open(section, key, next), ks[1..])
  {
    hide Join;
    PrecededTwice([], [], Read(Open(section, key, Join(value, ks[0].text)), ks[1..]));
  }

  /** No entry line alone overfills the value buffer: a line is shorter than it. */
  ghost predicate ShortRests(ks: seq<LineKind>) {
    forall i :: 0 <= i < |ks| && ks[i].EntryLine? ==> |Trim(ks[i].rest)| < VALUE_SIZE
  }

  ghost predicate Agree(section: string, ks: seq<LineKind>) {
    var o := Read(State(section, None), ks);
    o.status == Verdict(ks) && (o.status == Ok ==> ParseCalls(o) == Entries(section, ks))
  }

  /** Short entry lines, and continuations that continue something. */
  ghost predicate Proper(ks: seq<LineKind>) {
    ShortRests(ks) && forall i :: 0 <= i < |ks| && ks[i].Continuation? ==> ks[i].text != ""
  }

  /** The line machine ends as the grammar says and, when it ends well, makes exactly the
      grammar's calls: one per entry, with its whole value. */
  lemma {:induction false} MachineRefinesGrammar(section: string, ks: seq<LineKind>)
    requires Proper(ks)
    ensures Agree(section, ks)
    decreases |ks|, 1
  {
    hide *;
    if ks == [] {
      NothingAgrees(section, ks);
    } else if ks[0].EntryLine? {
      EntryRefinesGrammar(section, ks);
    } else {
      PlainAgrees(section, ks);
      var step := StepKind(State(section, None), ks[0]);
      if step.Next? {
        ProperTail(ks);
        MachineRefinesGrammar(step.st.section, ks[1..]);
      }
    }
  }

  lemma NothingAgrees(section: string, ks: seq<LineKind>)
    requires ks == []
    ensures Agree(section, ks)
  {
  }

  /** A line that is no entry: machine and grammar take the same step. */
  lemma PlainAgrees(section: string, ks: seq<LineKind>)
    requires ks != [] && !ks[0].EntryLine?
    ensures var step := StepKind(State(section, None), ks[0]);
            if step.Next? then Agree(step.st.section, ks[1..]) ==> Agree(section, ks) else Agree(section, ks)
  {
    hide ParseCalls, Trim, BlankOnly;
    if StepKind(State(section, None), ks[0]).Next? {
      ReadStep(section, ks);
      hide Read;
    }
  }

  lemma {:induction false} EntryRefinesGrammar(section: string, ks: seq<LineKind>)
    requires Proper(ks) && ks != [] && ks[0].EntryLine?
    ensures Agree(section, ks)
    decreases |ks|, 0
  {
    EntryUnfolds(section, ks);
    hide Entries, Verdict;
    if |Trim(ks[0].key)| < KEY_SIZE && !BlankOnly(ks[0].rest) {
      hide Trim, BlankOnly, ValueOf, RunTexts, AfterRun, Read, EntriesAfter, VerdictAfter, ParseCalls, Proper;
      var value := ValueOf(Trim(ks[0].rest), RunTexts(ks[1..]));
      ReadBlock(section, ks);
      ProperTail(ks);
      AfterRunProper(ks[1..]);
      OpenRefinesGrammar(section, Trim(ks[0].key), value, AfterRun(ks[1..]));
    }
  }

  lemma EntryUnfolds(section: string, ks: seq<LineKind>)
    requires ks != [] && ks[0].EntryLine?
    ensures var value := ValueOf(Trim(ks[0].rest), RunTexts(ks[1..]));
            if |Trim(ks[0].key)| >= KEY_SIZE || BlankOnly(ks[0].rest) then
              Verdict(ks) == Fault == Read(State(section, None), ks).status
            else
              && Entries(section, ks)
                 == EntriesAfter(section, Call(section, Trim(ks[0].key), value), AfterRun(ks[1..]))
              && Verdict(ks) == if |value| >= VALUE_SIZE then Fault else VerdictAfter(AfterRun(ks[1..]))
  {
    hide Trim, BlankOnly, ValueOf, RunTexts, AfterRun, EntriesAfter, VerdictAfter;
  }

  lemma {:induction false} AfterRunProper(ks: seq<LineKind>)
    requires Proper(ks)
    ensures Proper(AfterRun(ks))
    ensures AfterRun(ks) != [] ==> !AfterRun(ks)[0].Continuation?
    ensures forall i :: 0 <= i < |RunTexts(ks)| ==> RunTexts(ks)[i] != ""
  {
    if ks != [] && ks[0].Continuation? {
      AfterRunProper(ks[1..]);
    }
  }

  /** Right after a finished run of continuations the value is handed over and reading goes on
      as if none were open. */
  lemma {:induction false} OpenRefinesGrammar(section: string, key: string, value: string, rest: seq<LineKind>)
    requires Proper(rest) && (rest != [] ==> !rest[0].Continuation?)
    ensures var o := Read(Open(section, key, value), rest);
            && o.status == VerdictAfter(rest)
            && (o.status == Ok ==> ParseCalls(o) == EntriesAfter(section, Call(section, key, value), rest))
    decreases |rest|, 2
  {
    hide Proper, Entries, Verdict, ParseCalls, Trim, BlankOnly;
    if rest == [] {
      OpenAtEnd(section, key, value);
    } else if rest[0].BlankTail? {
      PrecededTwice([], [], Read(State(section, None), rest[1..]));
      ProperTail(rest);
      MachineRefinesGrammar(section, rest[1..]);
    } else if !rest[0].CommentLine? && !rest[0].BlankLine? {
      HandOver(section, key, value, rest);
      hide Read;
      MachineRefinesGrammar(section, rest);
    }
  }

  lemma OpenAtEnd(section: string, key: string, value: string)
    ensures ParseCalls(Read(Open(section, key, value), [])) == [Call(section, key, value)]
  {
    assert [] + [Call(section, key, value)] == [Call(section, key, value)];
  }

  lemma HandOver(section: string, key: string, value: string, rest: seq<LineKind>)
    requires rest != [] && !StartsBlank(rest[0]) && !rest[0].CommentLine?
    ensures var o, closed := Read(Open(section, key, value), rest), Read(State(section, None), rest);
            && o.status == closed.status
            && (o.status == Ok ==> ParseCalls(o) == [Call(section, key, value)] + ParseCalls(closed))
  {
    var step := StepKind(State(section, None), rest[0]);
    hide Trim, BlankOnly;
    if step.Next? {
      PrecededTwice([], [], Read(step.st, rest[1..]));
      PrecededTwice([Call(section, key, value)], [], Read(step.st, rest[1..]));
    }
  }

  lemma ReadStep(section: string, ks: seq<LineKind>)
    requires ks != [] && StepKind(State(section, None), ks[0]).Next?
    ensures var st := StepKind(State(section, None), ks[0]).st;
            Read(State(section, None), ks) == Read(st, ks[1..])
  {
    hide Trim, BlankOnly;
    PrecededTwice([], [], Read(StepKind(State(section, None), ks[0]).st, ks[1..]));
  }

  /** An entry line and the run below it leave the entry's whole value open. */
  lemma ReadBlock(section: string, ks: seq<LineKind>)
    requires Proper(ks) && ks != [] && ks[0].EntryLine?
    requires |Trim(ks[0].key)| < KEY_SIZE && !BlankOnly(ks[0].rest)
    ensures var value := ValueOf(Trim(ks[0].rest), RunTexts(ks[1..]));
            var all := Read(State(section, None), ks);
            if |value| >= VALUE_SIZE then all.status == Fault
            else all == Read(Open(section, Trim(ks[0].key), value), AfterRun(ks[1..]))
  {
    hide *;
    var key, first := Trim(ks[0].key), Trim(ks[0].rest);
    ProperTail(ks);
    EntryStep(section, ks);
    AfterRunProper(ks[1..]);
    AccumulatedIsValueOf(first, RunTexts(ks[1..]));
    ReadRun(section, key, first, ks[1..]);
  }

  lemma EntryStep(section: string, ks: seq<LineKind>)
    requires ks != [] && ks[0].EntryLine?
    requires |Trim(ks[0].key)| < KEY_SIZE && !BlankOnly(ks[0].rest)
    ensures Read(State(section, None), ks)
         == Read(Open(section, Trim(ks[0].key), Trim(ks[0].rest)), ks[1..])
  {
    hide Read, Trim, BlankOnly;
    ReadStep(section, ks);
  }

  lemma ProperTail(ks: seq<LineKind>)
    requires Proper(ks) && ks != []
    ensures Proper(ks[1..])
    ensures ks[0].EntryLine? ==> |Trim(ks[0].rest)| < VALUE_SIZE
  {
    hide Trim;
  }

  /** The same about the lines of a file. */
  lemma ParseFollowsGrammar(ls: seq<string>)
    requires AllLines(ls)
    ensures var o := Read(START, Kinds(ls));
            && o.status == Verdict(Kinds(ls))
            && (o.status == Ok ==> ParseCalls(o) == Entries("", Kinds(ls)))
  {
    var ks := Kinds(ls);
    forall i | 0 <= i < |ks|
      ensures ks[i].EntryLine? ==> |Trim(ks[i].rest)| < VALUE_SIZE
      ensures ks[i].Continuation? ==> ks[i].text != ""
    {
      KindOfLine(ls[i]);
      assert IsLine(ls[i]);
    }
    hide Kinds, Read, Verdict, Entries, Classify, Trim;
    MachineRefinesGrammar("", ks);
  }

  /** The lines of any text are such lines. */
  lemma {:induction false} SplitIntoLines(text: string)
    ensures AllLines(SplitLines(text))
    decreases |text|
  {
    if text != "" {
      SplitStep(text);
      var n := ChunkEnd(text);
      ChunkIsLine(text);
      hide ChunkEnd, IsLine, SplitLines, StringAt;
      SplitIntoLines(text[n..]);
    }
  }

  lemma ChunkIsLine(text: string)
    requires text != ""
    ensures IsLine(StringAt(text[..ChunkEnd(text)], 0))
  {
    var n := ChunkEnd(text);
    var l := StringAt(text[..n], 0);
    forall k | 0 <= k < |l| - 1 ensures l[k] != '\n' {
      assert l[k] == text[k];
    }
    forall k | 0 <= k < |l| ensures l[k] != NUL {
      assert l[k] == text[..n][k];
    }
  }

  /** The same for file contents. */
  lemma ParseTextFollowsGrammar(text: string)
    ensures var ks := Kinds(SplitLines(text));
            && ParseText(text).status == Verdict(ks)
            && (ParseText(text).status == Ok ==> ParseCalls(ParseText(text)) == Entries("", ks))
  {
    hide SplitLines, Kinds, Read, Verdict, Entries, ParseCalls, AllLines;
    SplitIntoLines(text);
    ParseFollowsGrammar(SplitLines(text));
  }

  lemma KindOfLine(l: string)
    ensures Classify(l).EntryLine? ==> |Trim(Classify(l).rest)| <= |l|
    ensures Classify(l).Continuation? ==> Classify(l).text != ""
  {
    hide Trim;
  }

  // ----- reading in two parts ------------------------------------------------------------------

  lemma {:induction false} ReadAppend(st: State, a: seq<LineKind>, b: seq<LineKind>)
    ensures var first := Read(st, a);
            Read(st, a + b) ==
              if first.status != Ok then first else Preceded(first.calls, Read(first.last, b))
    decreases |a|
  {
    if a == [] {
      assert a + b == b;
      PrecededTwice([], [], Read(st, b));
    } else {
      assert (a + b)[1..] == a[1..] + b;
      var step := StepKind(st, a[0]);
      if step.Next? {
        ReadAppend(step.st, a[1..], b);
        var first := Read(step.st, a[1..]);
        PrecededTwice(step.calls, first.calls, Read(first.last, b));
      }
    }
  }

  /** Two files joined by an empty line make the calls of the first, then the calls of the
      second as read from the section the first left in force. */
  lemma JoinedFiles(st: State, a: seq<LineKind>, b: seq<LineKind>)
    requires Read(st, a).status == Ok
    ensures var first := Read(st, a);
            var second := Read(State(first.last.section, None), b);
            var both := Read(st, a + [EmptyLine] + b);
            && both.status == second.status
            && (both.status == Ok ==> ParseCalls(both) == ParseCalls(first) + ParseCalls(second))
  {
    var first := Read(st, a);
    var second := Read(State(first.last.section, None), b);
    assert a + [EmptyLine] + b == a + ([EmptyLine] + b);
    assert ([EmptyLine] + b)[1..] == b;
    ReadAppend(st, a, [EmptyLine] + b);
    PrecededTwice(first.calls, Flush(first.last), second);
    PrecededTwice(first.calls + Flush(first.last), [], second);
  }

  /** Text that ends in a newline splits into lines independently of what follows. */
  lemma {:induction false} SplitAppend(a: string, b: string)
    requires a == "" || a[|a| - 1] == '\n'
    ensures SplitLines(a + b) == SplitLines(a) + SplitLines(b)
    decreases |a|
  {
    if a == "" {
      assert a + b == b;
    } else {
      hide *;
      var n := ChunkEnd(a);
      FirstChunk(a, b);
      SplitStep(a);
      SplitStep(a + b);
      SliceOfSum(a, b, n);
      SplitAppend(a[n..], b);
      Associate(StringAt(a[..n], 0), SplitLines(a[n..]), SplitLines(b));
    }
  }

  lemma SliceOfSum(a: string, b: string, n: nat)
    requires n <= |a|
    ensures (a + b)[..n] == a[..n] && (a + b)[n..] == a[n..] + b
  {
  }

  lemma SplitStep(text: string)
    requires text != ""
    ensures SplitLines(text) == [StringAt(text[..ChunkEnd(text)], 0)] + SplitLines(text[ChunkEnd(text)..])
  {
    hide ChunkEnd, StringAt;
  }

  lemma FirstChunk(a: string, b: string)
    requires a != "" && a[|a| - 1] == '\n'
    ensures ChunkEnd(a + b) == ChunkEnd(a)
  {
    var k := IndexFrom(a, '\n', 0);
    assert k < |a|;
    IndexFromUnique(a + b, '\n', 0, k);
  }

  lemma {:induction false} KindsAppend(a: seq<string>, b: seq<string>)
    ensures Kinds(a + b) == Kinds(a) + Kinds(b)
  {
    hide *;
    if a == [] {
      NoKinds(a, b);
    } else {
      FirstOfSum(a, b);
      KindsAppend(a[1..], b);
      KindsCons(a);
      KindsCons(a + b);
      Associate(Classify(a[0]), Kinds(a[1..]), Kinds(b));
    }
  }

  lemma NoKinds(a: seq<string>, b: seq<string>)
    requires a == []
    ensures Kinds(a + b) == Kinds(a) + Kinds(b)
  {
    assert a + b == b;
  }

  lemma FirstOfSum<T>(a: seq<T>, b: seq<T>)
    requires a != []
    ensures (a + b)[0] == a[0] && (a + b)[1..] == a[1..] + b
  {
  }

  lemma Associate<T>(x: T, a: seq<T>, b: seq<T>)
    ensures [x] + (a + b) == ([x] + a) + b
  {
  }

  lemma KindsCons(ls: seq<string>)
    requires ls != []
    ensures Kinds(ls) == [Classify(ls[0])] + Kinds(ls[1..])
  {
    hide Classify;
  }

  lemma EmptyLineText()
    ensures SplitLines("\n") == ["\n"] && Kinds(["\n"]) == [EmptyLine]
  {
    assert ChunkEnd("\n") == 1 && "\n"[..1] == "\n" && "\n"[1..] == "";
    IndexFromUnique("\n", NUL, 0, 1);
    assert SplitLines("\n") == ["\n"] + SplitLines("");
    assert ["\n"][1..] == [];
    assert Kinds(["\n"]) == [Classify("\n")] + Kinds([]);
  }

  /** The same for file contents: `ini_parse` on two files joined by an empty line. */
  lemma JoinedTexts(a: string, b: string)
    requires a == "" || a[|a| - 1] == '\n'
    requires ParseText(a).status == Ok
    ensures var first := ParseText(a);
            var second := Read(State(first.last.section, None), Kinds(SplitLines(b)));
            var both := ParseText(a + "\n" + b);
            && both.status == second.status
            && (both.status == Ok ==> ParseCalls(both) == ParseCalls(first) + ParseCalls(second))
  {
    hide Kinds, SplitLines, Read, ParseCalls, ChunkEnd;
    var la, lb := SplitLines(a), SplitLines(b);
    EmptyLineText();
    SplitAppend(a, "\n" + b);
    SplitAppend("\n", b);
    assert a + "\n" + b == a + ("\n" + b);
    KindsAppend(["\n"], lb);
    KindsAppend(la, ["\n"] + lb);
    assert Kinds(la) + ([EmptyLine] + Kinds(lb)) == Kinds(la) + [EmptyLine] + Kinds(lb);
    JoinedFiles(START, Kinds(la), Kinds(lb));
  }

  // ----- one call per entry --------------------------------------------------------------------

  function EntryLines(ks: seq<LineKind>): nat {
    if ks == [] then 0 else (if ks[0].EntryLine? then 1 else 0) + EntryLines(ks[1..])
  }

  function BlankTails(ks: seq<LineKind>): nat {
    if ks == [] then 0 else (if ks[0].BlankTail? then 1 else 0) + BlankTails(ks[1..])
  }

  lemma {:induction false} RunHasNone(ks: seq<LineKind>)
    ensures EntryLines(AfterRun(ks)) == EntryLines(ks) && BlankTails(AfterRun(ks)) == BlankTails(ks)
  {
    if ks != [] && ks[0].Continuation? {
      RunHasNone(ks[1..]);
    }
  }

  /** In a file that is read to its end, every entry line makes one call, except that each line of
      blanks without a newline has swallowed the entry above it. */
  lemma {:induction false} CallsCount(section: string, ks: seq<LineKind>)
    requires Verdict(ks) == Ok
    ensures |Entries(section, ks)| + BlankTails(ks) == EntryLines(ks)
    decreases |ks|, 0
  {
    hide Trim, BlankOnly, ValueOf, RunTexts;
    if ks != [] {
      if ks[0].EntryLine? {
        RunHasNone(ks[1..]);
        var value := ValueOf(Trim(ks[0].rest), RunTexts(ks[1..]));
        CallsCountAfter(section, Call(section, Trim(ks[0].key), value), AfterRun(ks[1..]));
      } else {
        CallsCount(if ks[0].HeaderLine? then Trim(ks[0].name) else section, ks[1..]);
      }
    }
  }

  lemma {:induction false} CallsCountAfter(section: string, entry: Call, rest: seq<LineKind>)
    requires VerdictAfter(rest) == Ok
    ensures |EntriesAfter(section, entry, rest)| + BlankTails(rest) == 1 + EntryLines(rest)
    decreases |rest|, 1
  {
    hide Trim, BlankOnly, Entries, Verdict;
    if rest != [] {
      CallsCount(section, if rest[0].BlankTail? then rest[1..] else rest);
    }
  }
}
