/** Where reading a workspace file stops: at the first line that is indented under nothing, or at
    the first line whose reading leaves a buffer. And what a line of blanks at the end does. */
module IniStops {
  import opened CBytes
  import opened IniMachine
  import opened IniGrammar
  import opened IniPrinter

  /** A value is open in front of line `n`: an entry line lies above, with nothing but its
      continuations in between. */
  predicate ValueOpen(ks: seq<LineKind>, n: nat)
    requires n <= |ks|
  {
    n > 0 && (ks[n - 1].EntryLine? || (ks[n - 1].Continuation? && ValueOpen(ks, n - 1)))
  }

  /** The value open in front of line `n`. */
  function OpenValue(ks: seq<LineKind>, n: nat): string
    requires n <= |ks| && ValueOpen(ks, n)
  {
    if ks[n - 1].EntryLine? then Trim(ks[n - 1].rest) else Join(OpenValue(ks, n - 1), ks[n - 1].text)
  }

  /** Line `n` is indented under nothing. */
  predicate StrayAt(ks: seq<LineKind>, n: nat)
    requires n < |ks|
  {
    StartsBlank(ks[n]) && !ValueOpen(ks, n)
  }

  /** Line `n` cannot be read inside the buffers: a comment or a blank line below an open value, a
      name or a rest of blanks only, a name or key that is too long, or one piece of a value
      too many. */
  predicate FaultAt(ks: seq<LineKind>, n: nat)
    requires n < |ks|
  {
    match ks[n]
    case HeaderLine(name) => BlankOnly(name) || |Trim(name)| >= 256
    case EntryLine(key, rest) => |Trim(key)| >= 256 || BlankOnly(rest)
    case Continuation(text) => ValueOpen(ks, n) && |Join(OpenValue(ks, n), text)| >= 1024
    case CommentLine => ValueOpen(ks, n)
    case BlankLine => ValueOpen(ks, n)
    case _ => false
  }

  predicate StopsAt(ks: seq<LineKind>, n: nat)
    requires n < |ks|
  {
    StrayAt(ks, n) || FaultAt(ks, n)
  }

  /** Line `n` is the first to stop the parse. */
  predicate FirstStop(ks: seq<LineKind>, n: nat) {
    n < |ks| && StopsAt(ks, n) && forall m: nat :: m < n ==> !StopsAt(ks, m)
  }

  lemma ReadPrefix(ks: seq<LineKind>, n: nat)
    requires n < |ks|
    ensures var before := Read(START, ks[..n]);
            Read(START, ks[..n + 1]) ==
              if before.status != Ok then before
              else
                match StepKind(before.last, ks[n])
                case Next(st, calls) => Outcome(before.calls + calls, Ok, st)
                case Stray => Outcome(before.calls, Invalid, before.last)
                case OutOfBuffer => Outcome(before.calls, Fault, before.last)
  {
    hide Read, StepKind;
    var before := Read(START, ks[..n]);
    var one := [ks[n]];
    assert ks[..n + 1] == ks[..n] + one;
    ReadAppend(START, ks[..n], one);
    ReadOne(before.last, ks[n]);
    if before.status == Ok {
      var step := StepKind(before.last, ks[n]);
      if !step.Next? {
        assert before.calls + [] == before.calls;
      }
    }
  }

  lemma ReadOne(st: State, k: LineKind)
    ensures Read(st, [k]) ==
              match StepKind(st, k)
              case Next(next, calls) => Outcome(calls, Ok, next)
              case Stray => Outcome([], Invalid, st)
              case OutOfBuffer => Outcome([], Fault, st)
  {
    hide StepKind;
    assert [k][1..] == [];
    var step := StepKind(st, k);
    if step.Next? {
      assert step.calls + [] == step.calls;
    }
  }

  /** While all goes well the machine's open value is the one the lines above leave open. */
  lemma {:induction false} OpenAfter(ks: seq<LineKind>, n: nat)
    requires n <= |ks| && Read(START, ks[..n]).status == Ok
    ensures Read(START, ks[..n]).last.open.Some? <==> ValueOpen(ks, n)
    ensures ValueOpen(ks, n) ==> Read(START, ks[..n]).last.open.value.value == OpenValue(ks, n)
    decreases n
  {
    hide Read, Trim, BlankOnly, Join;
    if n == 0 {
      NothingRead(ks);
    } else {
      ReadPrefix(ks, n - 1);
      OpenAfter(ks, n - 1);
    }
  }

  lemma NothingRead(ks: seq<LineKind>)
    ensures Read(START, ks[..0]) == Outcome([], Ok, START)
  {
    assert ks[..0] == [];
  }

  /** The machine's step at a line, told from the lines alone. */
  lemma StepAt(ks: seq<LineKind>, n: nat)
    requires n < |ks| && Read(START, ks[..n]).status == Ok
    ensures var step := StepKind(Read(START, ks[..n]).last, ks[n]);
            && (step.Stray? <==> StrayAt(ks, n))
            && (step.OutOfBuffer? <==> FaultAt(ks, n))
  {
    hide Read, Trim, BlankOnly, Join, ValueOpen, OpenValue;
    OpenAfter(ks, n);
  }

  /** Lines are read as long as none stops the parse; the first that does decides how it ends. */
  lemma {:induction false} ReadUntil(ks: seq<LineKind>, n: nat)
    requires n <= |ks|
    ensures var o := Read(START, ks[..n]);
            && (o.status == Ok <==> forall m: nat :: m < n ==> !StopsAt(ks, m))
            && forall k: nat :: k < n && FirstStop(ks, k) ==>
                 && o.status == (if StrayAt(ks, k) then Invalid else Fault)
                 && o.calls == Read(START, ks[..k]).calls
    decreases n
  {
    hide Read, StrayAt, FaultAt, StepKind;
    if n == 0 {
      NothingRead(ks);
    } else {
      ReadUntil(ks, n - 1);
      ReadPrefix(ks, n - 1);
      if Read(START, ks[..n - 1]).status == Ok {
        StepAt(ks, n - 1);
        assert StopsAt(ks, n - 1) <==> Read(START, ks[..n]).status != Ok;
      }
    }
  }

  /** A file is read to its end exactly when no line stops the parse; it is refused exactly when
      the first line to stop it is indented under nothing; and the parser leaves its buffers
      exactly when that line cannot be read inside them. */
  lemma StatusIff(ks: seq<LineKind>)
    ensures Read(START, ks).status == Ok <==> forall n: nat :: n < |ks| ==> !StopsAt(ks, n)
    ensures Read(START, ks).status == Invalid <==> exists n: nat :: FirstStop(ks, n) && StrayAt(ks, n)
    ensures Read(START, ks).status == Fault <==> exists n: nat :: FirstStop(ks, n) && FaultAt(ks, n)
  {
    hide Read, StrayAt, FaultAt;
    assert ks[..|ks|] == ks;
    ReadUntil(ks, |ks|);
    if Read(START, ks).status != Ok {
      var n := FirstOf(ks);
      NotBoth(ks, n);
    }
  }

  lemma NotBoth(ks: seq<LineKind>, n: nat)
    requires n < |ks|
    ensures !(StrayAt(ks, n) && FaultAt(ks, n))
  {
  }

  lemma FirstOf(ks: seq<LineKind>) returns (n: nat)
    requires exists m: nat :: m < |ks| && StopsAt(ks, m)
    ensures FirstStop(ks, n)
  {
    hide StopsAt;
    n := 0;
    while !StopsAt(ks, n)
      invariant n < |ks| && forall m: nat :: m < n ==> !StopsAt(ks, m)
      decreases |ks| - n
    {
      n := n + 1;
    }
  }

  /** A refused file is refused at its first such line, and the calls made by then are those of
      the lines above it, parsed alone. */
  lemma InvalidIff(ks: seq<LineKind>)
    ensures Read(START, ks).status == Invalid <==> exists n: nat :: FirstStop(ks, n) && StrayAt(ks, n)
    ensures forall n: nat :: FirstStop(ks, n) && StrayAt(ks, n) ==>
              Read(START, ks).calls == ParseCalls(Read(START, ks[..n]))
  {
    hide Read, FaultAt;
    StatusIff(ks);
    assert ks[..|ks|] == ks;
    ReadUntil(ks, |ks|);
    forall n: nat | FirstStop(ks, n) && StrayAt(ks, n)
      ensures Read(START, ks).calls == ParseCalls(Read(START, ks[..n]))
    {
      ReadUntil(ks, n);
      OpenAfter(ks, n);
      NothingOpen(Read(START, ks[..n]));
    }
  }

  lemma NothingOpen(o: Outcome)
    requires o.last.open.None?
    ensures ParseCalls(o) == o.calls
  {
    assert o.calls + [] == o.calls;
  }

  // ----- a line of blanks at the end -----------------------------------------------------------

  lemma {:induction false} OpenBelow(ks: seq<LineKind>, p: nat, n: nat)
    requires p < n <= |ks| && ks[p].EntryLine?
    requires forall k :: p < k < n ==> ks[k].Continuation?
    ensures ValueOpen(ks, n)
    decreases n
  {
    if p < n - 1 {
      OpenBelow(ks, p, n - 1);
    }
  }

  lemma {:induction false} DocKindsAppend(doc: seq<Item>, item: Item)
    ensures DocKinds(doc + [item]) == DocKinds(doc) + ItemKinds(item)
  {
    hide ItemKinds;
    if doc == [] {
      assert [item][1..] == [] && doc + [item] == [item];
      assert DocKinds([item]) == ItemKinds(item) + DocKinds([]);
    } else {
      assert (doc + [item])[1..] == doc[1..] + [item];
      DocKindsAppend(doc[1..], item);
    }
  }

  lemma {:induction false} DocCallsAppend(section: string, doc: seq<Item>, item: Item)
    requires item.Entry?
    ensures |DocCalls(section, doc + [item])| == |DocCalls(section, doc)| + 1
    ensures DocCalls(section, doc) <= DocCalls(section, doc + [item])
    decreases |doc|
  {
    hide ValueOf;
    if doc == [] {
      assert [item][1..] == [] && doc + [item] == [item];
      assert DocCalls(section, [item]) == ItemCalls(section, item) + DocCalls(section, []);
    } else {
      assert (doc + [item])[1..] == doc[1..] + [item];
      DocCallsAppend(SectionAfter(section, doc[0]), doc[1..], item);
    }
  }

  lemma {:induction false} AllTexts(texts: seq<string>)
    ensures forall k :: 0 <= k < |TextKinds(texts)| ==> TextKinds(texts)[k].Continuation?
  {
    if texts != [] {
      AllTexts(texts[1..]);
    }
  }

  /** A document that ends in an entry leaves its value open. */
  lemma EndsOpen(doc: seq<Item>, item: Item)
    requires item.Entry?
    ensures ValueOpen(DocKinds(doc + [item]), |DocKinds(doc + [item])|)
  {
    DocKindsAppend(doc, item);
    AllTexts(TextsOf(item.more));
    hide DocKinds, ValueOpen, TextKinds, TextsOf;
    OpenBelow(DocKinds(doc + [item]), |DocKinds(doc)|, |DocKinds(doc + [item])|);
  }

  /** Blanks and no newline behind the last entry of a file: the parse succeeds, but the entry's
      handler call is never made. */
  lemma BlankTailDropsEntry(doc: seq<Item>, item: Item, blanks: string)
    requires WellFormedDoc(doc + [item]) && item.Entry?
    requires 0 < |blanks| < LINE_SIZE && forall k :: 0 <= k < |blanks| ==> IsSpace(blanks[k])
    ensures ParseText(Print(doc + [item])).status == Ok
    ensures ParseText(Print(doc + [item]) + blanks).status == Ok
    ensures ParseCalls(ParseText(Print(doc + [item]))) == DocCalls("", doc + [item])
    ensures ParseCalls(ParseText(Print(doc + [item]) + blanks)) == DocCalls("", doc)
    ensures |DocCalls("", doc + [item])| == |DocCalls("", doc)| + 1
  {
    hide *;
    var all := doc + [item];
    var ks := DocKinds(all);
    PrintThenParse(all);
    PrintedKinds(all);
    TailLine(blanks);
    TailKinds(all, blanks);
    ParseIsRead(Print(all));
    ParseIsRead(Print(all) + blanks);
    EndsOpen(doc, item);
    TailDrops(ks);
    DocCallsAppend("", doc, item);
    CutLast(ParseCalls(Read(START, ks)), Read(START, ks), DocCalls("", doc));
  }

  lemma PrintedKinds(doc: seq<Item>)
    requires WellFormedDoc(doc)
    ensures Kinds(SplitLines(Print(doc))) == DocKinds(doc) && AllTerminated(DocLines(doc))
  {
    hide Kinds, SplitLines, DocLines, AllTerminated, Concat, DocKinds, WellFormedDoc;
    DocKindsMatch(doc);
    SplitConcat(DocLines(doc));
  }

  lemma TailLine(blanks: string)
    requires 0 < |blanks| < LINE_SIZE && forall k :: 0 <= k < |blanks| ==> IsSpace(blanks[k])
    ensures Kinds(SplitLines(blanks)) == [BlankTail]
  {
    hide Kinds, SplitLines, ChunkEnd, Classify, StringAt;
    TailChunk(blanks);
    TailClassified(blanks);
    SplitStep(blanks);
    NoLines();
    assert [blanks] + [] == [blanks];
    OneKind(blanks);
  }

  lemma NoLines()
    ensures SplitLines("") == []
  {
  }

  lemma TailClassified(blanks: string)
    requires blanks != "" && forall k :: 0 <= k < |blanks| ==> IsSpace(blanks[k])
    ensures Classify(blanks) == BlankTail
  {
    TrimIs(blanks, 0, 0);
    hide Trim, IndexFrom;
    assert blanks[0..0] == "";
  }

  lemma TailChunk(blanks: string)
    requires 0 < |blanks| < LINE_SIZE && forall k :: 0 <= k < |blanks| ==> IsSpace(blanks[k])
    ensures ChunkEnd(blanks) == |blanks| && StringAt(blanks[..|blanks|], 0) == blanks && blanks[|blanks|..] == ""
  {
    IndexFromUnique(blanks, '\n', 0, |blanks|);
    IndexFromUnique(blanks, NUL, 0, |blanks|);
    assert blanks[..|blanks|] == blanks && blanks[|blanks|..] == "";
  }

  lemma TailKinds(doc: seq<Item>, blanks: string)
    requires WellFormedDoc(doc) && Kinds(SplitLines(blanks)) == [BlankTail]
    ensures Kinds(SplitLines(Print(doc) + blanks)) == DocKinds(doc) + [BlankTail]
  {
    hide Kinds, SplitLines, DocLines, AllTerminated, Concat, DocKinds, WellFormedDoc;
    DocKindsMatch(doc);
    SplitFirst(DocLines(doc), blanks);
  }

  lemma TailDrops(ks: seq<LineKind>)
    requires Read(START, ks).status == Ok && ValueOpen(ks, |ks|)
    ensures var o := Read(START, ks + [BlankTail]);
            o.status == Ok && ParseCalls(o) == Read(START, ks).calls
    ensures |Flush(Read(START, ks).last)| == 1
  {
    hide Read, ValueOpen, OpenValue;
    var o := Read(START, ks);
    assert ks[..|ks|] == ks;
    OpenAfter(ks, |ks|);
    ReadAppend(START, ks, [BlankTail]);
    ReadOne(o.last, BlankTail);
    assert (o.calls + []) + [] == o.calls;
  }

  lemma CutLast(all: seq<Call>, o: Outcome, front: seq<Call>)
    requires o.status == Ok && all == ParseCalls(o) && |Flush(o.last)| == 1
    requires front <= all && |all| == |front| + 1
    ensures o.calls == front
  {
    assert all[..|front|] == front && (o.calls + Flush(o.last))[..|o.calls|] == o.calls;
  }

  // ----- what may follow a document ---------------------------------------------------------------

  /** The text behind a document is read from where the document leaves off. */
  lemma BehindDoc(doc: seq<Item>, following: string)
    requires WellFormedDoc(doc)
    ensures var first := Read(START, DocKinds(doc));
            && first.status == Ok && ParseCalls(first) == DocCalls("", doc)
            && (first.last.open.Some? <==> ValueOpen(DocKinds(doc), |DocKinds(doc)|))
            && ParseText(Print(doc) + following) == Preceded(first.calls, Read(first.last, Kinds(SplitLines(following))))
  {
    hide *;
    var ks := DocKinds(doc);
    PrintThenParse(doc);
    PrintedKinds(doc);
    ParseIsRead(Print(doc));
    ParseIsRead(Print(doc) + following);
    PrintedIs(doc);
    DocKindsMatch(doc);
    SplitFirst(DocLines(doc), following);
    ReadAppend(START, ks, Kinds(SplitLines(following)));
    assert ks[..|ks|] == ks;
    OpenAfter(ks, |ks|);
  }

  lemma PrintedIs(doc: seq<Item>)
    ensures Print(doc) == Concat(DocLines(doc))
  {
  }

  lemma FirstKind(c: char, rest: string)
    requires c != NUL
    ensures var ks := Kinds(SplitLines([c] + rest));
            ks != [] && (c == ' ' || c == '\t' ==> StartsBlank(ks[0])) && (c == '#' ==> ks[0].CommentLine?)
  {
    var text := [c] + rest;
    hide Kinds, SplitLines, Trim;
    SplitStep(text);
    KindsCons(SplitLines(text));
    var l := StringAt(text[..ChunkEnd(text)], 0);
    assert text != "" && ChunkEnd(text) > 0;
    assert l != "" && l[0] == c;
  }

  lemma EndsClosed(doc: seq<Item>)
    requires doc == [] || !doc[|doc| - 1].Entry?
    ensures !ValueOpen(DocKinds(doc), |DocKinds(doc)|)
  {
    if doc != [] {
      var n := |doc| - 1;
      assert doc == doc[..n] + [doc[n]];
      DocKindsAppend(doc[..n], doc[n]);
    }
  }

  /** An indented line below a document that does not end in an entry - a space or a tab in front is
      enough - makes the parse fail, after the document's calls. */
  lemma IndentRefused(doc: seq<Item>, c: char, rest: string)
    requires WellFormedDoc(doc) && (doc == [] || !doc[|doc| - 1].Entry?) && (c == ' ' || c == '\t')
    ensures ParseText(Print(doc) + ([c] + rest)).status == Invalid
    ensures ParseCalls(ParseText(Print(doc) + ([c] + rest))) == DocCalls("", doc)
  {
    hide ParseText, Kinds, SplitLines, DocKinds, WellFormedDoc, Print, ValueOpen;
    BehindDoc(doc, [c] + rest);
    FirstKind(c, rest);
    EndsClosed(doc);
    var first := Read(START, DocKinds(doc));
    NothingOpen(first);
    StrayRead(first.last, Kinds(SplitLines([c] + rest)));
    hide Read;
    assert first.calls + [] == first.calls;
  }

  lemma StrayRead(st: State, ks: seq<LineKind>)
    requires st.open.None? && ks != [] && StartsBlank(ks[0])
    ensures Read(st, ks) == Outcome([], Invalid, st)
  {
  }

  /** A comment directly below an entry, whatever it says, makes the parser leave its line buffer. */
  lemma CommentFaults(doc: seq<Item>, item: Item, rest: string)
    requires WellFormedDoc(doc + [item]) && item.Entry?
    ensures ParseText(Print(doc + [item]) + ("#" + rest)).status == Fault
  {
    hide ParseText, Kinds, SplitLines, DocKinds, WellFormedDoc, Print, ValueOpen;
    BehindDoc(doc + [item], "#" + rest);
    FirstKind('#', rest);
    EndsOpen(doc, item);
    CommentRead(Read(START, DocKinds(doc + [item])).last, Kinds(SplitLines("#" + rest)));
    hide Read;
  }

  lemma CommentRead(st: State, ks: seq<LineKind>)
    requires st.open.Some? && ks != [] && ks[0].CommentLine?
    ensures Read(st, ks).status == Fault
  {
  }
}
