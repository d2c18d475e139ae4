/** Workspace documents, how they are written down, and the proof that parsing the written
    form makes exactly the document's calls. */
module IniPrinter {
  import opened CBytes
  import opened IniMachine
  import opened IniGrammar

  /** One indented line of a value: its text between blanks. */
  datatype Text = Text(indent: string, text: string, end: string)

  /** What a document is made of, with the blanks its lines are written with. */
  datatype Item =
    | Header(left: string, name: string, right: string, tail: string)
    | Entry(key: string, keyGap: string, gap: string, first: string, end: string, more: seq<Text>)
    | Gap
    | Note(text: string)
    | Idle(text: string)

  // ----- the format ---------------------------------------------------------------------

  function TextsOf(more: seq<Text>): (texts: seq<string>)
    ensures |texts| == |more|
  {
    if more == [] then [] else [more[0].text] + TextsOf(more[1..])
  }

  function TextLine(t: Text): string {
    t.indent + t.text + t.end + "\n"
  }

  function TextLines(more: seq<Text>): seq<string> {
    if more == [] then [] else [TextLine(more[0])] + TextLines(more[1..])
  }

  /** What stands behind the `=`. */
  function RestOf(gap: string, first: string, end: string): string {
    gap + first + end + "\n"
  }

  function ItemLines(item: Item): seq<string> {
    match item
    case Header(left, name, right, tail) => ["[" + (left + name + right) + "]" + tail + "\n"]
    case Entry(key, keyGap, gap, first, end, more) =>
      [(key + keyGap) + "=" + RestOf(gap, first, end)] + TextLines(more)
    case Gap => ["\n"]
    case Note(text) => ["#" + text + "\n"]
    case Idle(text) => [text + "\n"]
  }

  function DocLines(doc: seq<Item>): seq<string> {
    if doc == [] then [] else ItemLines(doc[0]) + DocLines(doc[1..])
  }

  function Concat(ls: seq<string>): string {
    if ls == [] then "" else ls[0] + Concat(ls[1..])
  }

  function Print(doc: seq<Item>): string {
    Concat(DocLines(doc))
  }

  /** The section in force below an item. */
  function SectionAfter(section: string, item: Item): string {
    if item.Header? then item.name else section
  }

  /** What an item means. */
  function ItemCalls(section: string, item: Item): seq<Call> {
    if item.Entry? then [Call(section, item.key, ValueOf(item.first, TextsOf(item.more)))] else []
  }

  /** What the document means. */
  function DocCalls(section: string, doc: seq<Item>): seq<Call>
    decreases |doc|
  {
    if doc == [] then []
    else ItemCalls(section, doc[0]) + DocCalls(SectionAfter(section, doc[0]), doc[1..])
  }

  // ----- which documents can be written ------------------------------------------------------

  ghost predicate Blank(s: string) {
    forall k :: 0 <= k < |s| ==> s[k] == ' ' || s[k] == '\t'
  }

  /** Part of a line. */
  ghost predicate OneLined(s: string) {
    NUL !in s && '\n' !in s
  }

  /** One line of text with no blanks around it. */
  ghost predicate Neat(s: string) {
    && OneLined(s)
    && (s != "" ==> s[0] != ' ' && s[0] != '\t' && s[|s| - 1] != ' ' && s[|s| - 1] != '\t')
  }

  ghost predicate WellText(t: Text) {
    Blank(t.indent) && t.indent != "" && Neat(t.text) && t.text != "" && Blank(t.end)
  }

  ghost predicate WellKey(key: string) {
    && Neat(key) && key != "" && key[0] != '[' && key[0] != '#'
    && forall k :: 1 <= k < |key| ==> key[k] != '='
  }

  /** Any blanks may stand around names, keys and texts, and must in front of an indented text; but
      there must be none where there is nothing they could stand around. */
  ghost predicate WellFormed(item: Item) {
    && Fit(ItemLines(item))
    && match item
       case Header(left, name, right, tail) =>
         && Blank(left) && Neat(name) && Blank(right) && OneLined(tail)
         && ']' !in name && |name| < SECTION_SIZE && (name == "" ==> left == "" == right)
       case Entry(key, keyGap, gap, first, end, more) =>
         && WellKey(key) && |key| < KEY_SIZE && Blank(keyGap)
         && Blank(gap) && Neat(first) && Blank(end) && (first == "" ==> gap == "" == end)
         && (forall i :: 0 <= i < |more| ==> WellText(more[i]))
         && |ValueOf(first, TextsOf(more))| < VALUE_SIZE
       case Gap => true
       case Note(text) => OneLined(text)
       case Idle(text) =>
         && OneLined(text) && text != "" && text[0] != ' ' && text[0] != '\t' && text[0] != '#'
         && forall k :: 1 <= k < |text| ==> text[k] != (if text[0] == '[' then ']' else '=')
  }

  /** Every item can be written, and no comment stands directly below an entry. */
  ghost predicate WellFormedDoc(doc: seq<Item>) {
    && (forall i :: 0 <= i < |doc| ==> WellFormed(doc[i]))
    && (forall i :: 0 <= i < |doc| - 1 && doc[i].Entry? ==> !doc[i + 1].Note?)
  }

  // ----- trimming -----------------------------------------------------------------------------

  /** Trimming takes off exactly the blanks in front and the blanks and newlines behind. */
  lemma TrimIs(l: string, i: nat, j: nat)
    requires i <= j <= |l|
    requires forall k :: 0 <= k < i ==> IsSpace(l[k])
    requires forall k :: j <= k < |l| ==> IsTrailing(l[k])
    requires i < j ==> !IsSpace(l[i]) && !IsTrailing(l[j - 1])
    ensures Trim(l) == l[i..j]
  {
    hide TrimLeft, TrimRight;
    var t := TrimRight(l);
    if i < j {
      assert |t| == j;
      assert |TrimLeft(t)| == j - i;
    }
  }

  // ----- what each written line is ----------------------------------------------------------------

  function TextKinds(texts: seq<string>): seq<LineKind> {
    if texts == [] then [] else [Continuation(texts[0])] + TextKinds(texts[1..])
  }

  function ItemKinds(item: Item): seq<LineKind> {
    match item
    case Header(left, name, right, _) => [HeaderLine(left + name + right)]
    case Entry(key, keyGap, gap, first, end, more) =>
      [EntryLine(key + keyGap, RestOf(gap, first, end))] + TextKinds(TextsOf(more))
    case Gap => [EmptyLine]
    case Note(_) => [CommentLine]
    case Idle(_) => [IdleLine]
  }

  function DocKinds(doc: seq<Item>): seq<LineKind> {
    if doc == [] then [] else ItemKinds(doc[0]) + DocKinds(doc[1..])
  }

  /** Text between blanks, at the end of a line or not, trims to the text. */
  lemma TrimBetween(left: string, text: string, right: string, nl: string)
    requires Blank(left) && Neat(text) && Blank(right) && (nl == "" || nl == "\n")
    ensures Trim(left + text + right + nl) == text
  {
    hide Trim;
    var l, i := left + text + right + nl, |left|;
    assert l == left + (text + (right + nl));
    forall k | i + |text| <= k < |l| ensures IsTrailing(l[k]) {
      assert l[k] == (right + nl)[k - i - |text|];
    }
    assert l[i..i + |text|] == text;
    if text == "" {
      BlanksTrim(l);
    } else {
      TrimIs(l, i, i + |text|);
    }
  }

  lemma BlanksTrim(l: string)
    requires forall k :: 0 <= k < |l| ==> IsTrailing(l[k])
    ensures Trim(l) == ""
  {
    TrimIs(l, 0, 0);
  }

  lemma HeaderKind(left: string, name: string, right: string, tail: string)
    requires Blank(left) && Neat(name) && Blank(right) && ']' !in name && (name == "" ==> left == "" == right)
    ensures Classify("[" + (left + name + right) + "]" + tail + "\n") == HeaderLine(left + name + right)
    ensures Trim(left + name + right) == name && !BlankOnly(left + name + right)
  {
    hide Trim;
    var inner := left + name + right;
    var l := "[" + inner + "]" + tail + "\n";
    HeaderSplits(inner, tail);
    TrimBetween(left, name, right, "");
    assert inner + "" == inner;
  }

  lemma HeaderSplits(inner: string, tail: string)
    requires ']' !in inner
    ensures Classify("[" + inner + "]" + tail + "\n") == HeaderLine(inner)
  {
    var l := "[" + inner + "]" + tail + "\n";
    assert l == ("[" + inner) + ("]" + tail + "\n");
    IndexFromUnique(l, ']', 1, |inner| + 1);
    hide IndexFrom, Trim;
    assert l[1..|inner| + 1] == inner;
  }

  lemma EntryKind(key: string, keyGap: string, gap: string, first: string, end: string)
    requires WellKey(key) && Blank(keyGap) && Blank(gap) && Neat(first) && Blank(end)
    requires first == "" ==> gap == "" == end
    ensures var rest := RestOf(gap, first, end);
            && Classify((key + keyGap) + "=" + rest) == EntryLine(key + keyGap, rest)
            && Trim(key + keyGap) == key && Trim(rest) == first && !BlankOnly(rest)
  {
    hide Classify, Trim;
    EntrySplits(key + keyGap, RestOf(gap, first, end));
    TrimBetween("", key, keyGap, "");
    assert "" + key + keyGap + "" == key + keyGap;
    TrimBetween(gap, first, end, "\n");
    NotBlankOnly(gap, first, end);
  }

  lemma NotBlankOnly(gap: string, first: string, end: string)
    requires Trim(RestOf(gap, first, end)) == first && (first == "" ==> gap == "" == end)
    ensures !BlankOnly(RestOf(gap, first, end))
  {
    hide Trim;
  }

  lemma EntrySplits(name: string, rest: string)
    requires name != "" && name[0] != ' ' && name[0] != '\t' && name[0] != '\n' && name[0] != '[' && name[0] != '#'
    requires forall k :: 1 <= k < |name| ==> name[k] != '='
    ensures Classify(name + "=" + rest) == EntryLine(name, rest)
  {
    var l := name + "=" + rest;
    IndexFromUnique(l, '=', 1, |name|);
    hide IndexFrom, Trim;
    assert l[..|name|] == name && l[|name| + 1..] == rest;
    assert l[0] == name[0];
  }

  lemma TextKind(t: Text)
    requires WellText(t)
    ensures Classify(TextLine(t)) == Continuation(t.text)
  {
    hide Trim;
    TrimBetween(t.indent, t.text, t.end, "\n");
    assert TextLine(t)[0] == t.indent[0];
  }

  lemma IdleKind(text: string)
    requires WellFormed(Idle(text))
    ensures Classify(text + "\n") == IdleLine
  {
    hide Trim;
    var l := text + "\n";
    assert l[0] == text[0];
    IndexFromUnique(l, if text[0] == '[' then ']' else '=', 1, |l|);
    hide IndexFrom;
  }

  /** What `fgets` needs to see a line as one line. */
  ghost predicate Terminated(l: string) {
    IsLine(l) && l != "" && l[|l| - 1] == '\n'
  }

  ghost predicate AllTerminated(ls: seq<string>) {
    forall i :: 0 <= i < |ls| ==> Terminated(ls[i])
  }

  lemma ConsLines(l: string, ls: seq<string>)
    requires Terminated(l) && AllTerminated(ls)
    ensures AllTerminated([l] + ls) && Kinds([l] + ls) == [Classify(l)] + Kinds(ls)
  {
    hide Classify, Terminated;
    assert ([l] + ls)[1..] == ls;
  }

  ghost predicate Fit(ls: seq<string>) {
    forall i :: 0 <= i < |ls| ==> |ls[i]| < LINE_SIZE
  }

  lemma FitTail(l: string, ls: seq<string>)
    requires Fit([l] + ls)
    ensures |l| < LINE_SIZE && Fit(ls)
  {
    assert ([l] + ls)[0] == l;
    assert forall i :: 0 <= i < |ls| ==> ls[i] == ([l] + ls)[i + 1];
  }

  lemma {:induction false} TextLinesKinds(more: seq<Text>)
    requires forall i :: 0 <= i < |more| ==> WellText(more[i])
    requires Fit(TextLines(more))
    ensures AllTerminated(TextLines(more)) && Kinds(TextLines(more)) == TextKinds(TextsOf(more))
  {
    hide Classify, Terminated, WellText, TextLine, Kinds;
    if more == [] {
      NoKinds([], []);
    } else {
      var l := TextLine(more[0]);
      TextKind(more[0]);
      FitTail(l, TextLines(more[1..]));
      TextLineEnds(more[0]);
      TextLinesKinds(more[1..]);
      ConsLines(l, TextLines(more[1..]));
    }
  }

  lemma TextLineEnds(t: Text)
    requires WellText(t) && |TextLine(t)| < LINE_SIZE
    ensures Terminated(TextLine(t))
  {
    hide Terminated;
    BlankOneLined(t.indent);
    BlankOneLined(t.end);
    LineEnds(t.indent + t.text + t.end);
  }

  lemma BlankOneLined(s: string)
    requires Blank(s)
    ensures OneLined(s)
  {
  }

  lemma LineEnds(s: string)
    requires NUL !in s && '\n' !in s && |s + "\n"| < LINE_SIZE
    ensures Terminated(s + "\n")
  {
  }

  lemma OneLineItem(s: string, k: LineKind)
    requires NUL !in s && '\n' !in s && Fit([s + "\n"]) && Classify(s + "\n") == k
    ensures AllTerminated([s + "\n"]) && Kinds([s + "\n"]) == [k]
  {
    hide Classify;
    assert |[s + "\n"][0]| < LINE_SIZE;
    LineEnds(s);
    OneKind(s + "\n");
  }

  lemma FirstLineEnds(name: string, gap: string, first: string, end: string)
    requires OneLined(name) && Blank(gap) && OneLined(first) && Blank(end)
    requires |name + "=" + RestOf(gap, first, end)| < LINE_SIZE
    ensures Terminated(name + "=" + RestOf(gap, first, end))
  {
    hide Terminated;
    BlankOneLined(gap);
    BlankOneLined(end);
    var body := name + "=" + (gap + first + end);
    assert body + "\n" == name + "=" + RestOf(gap, first, end);
    LineEnds(body);
  }

  lemma EntryItem(item: Item)
    requires WellFormed(item) && item.Entry?
    ensures AllTerminated(ItemLines(item)) && Kinds(ItemLines(item)) == ItemKinds(item)
  {
    hide Classify, Terminated, AllTerminated, Fit, Kinds, RestOf, TextLines, TextsOf, TextKinds, ValueOf, Trim,
      BlankOnly, WellText, WellKey, Blank, Neat;
    var rest := RestOf(item.gap, item.first, item.end);
    var l := (item.key + item.keyGap) + "=" + rest;
    EntryKind(item.key, item.keyGap, item.gap, item.first, item.end);
    FitTail(l, TextLines(item.more));
    KeyOneLined(item.key, item.keyGap);
    NeatOneLined(item.first);
    FirstLineEnds(item.key + item.keyGap, item.gap, item.first, item.end);
    TextLinesKinds(item.more);
    ConsLines(l, TextLines(item.more));
  }

  lemma KeyOneLined(key: string, keyGap: string)
    requires WellKey(key) && Blank(keyGap)
    ensures OneLined(key + keyGap)
  {
    BlankOneLined(keyGap);
  }

  lemma NeatOneLined(s: string)
    requires Neat(s)
    ensures OneLined(s)
  {
  }

  lemma HeaderItem(left: string, name: string, right: string, tail: string)
    requires WellFormed(Header(left, name, right, tail))
    ensures var item := Header(left, name, right, tail);
            AllTerminated(ItemLines(item)) && Kinds(ItemLines(item)) == ItemKinds(item)
  {
    hide Classify, Terminated, AllTerminated, Fit, Kinds, Trim, BlankOnly, Blank;
    HeaderKind(left, name, right, tail);
    BlankOneLined(left);
    BlankOneLined(right);
    OneLineItem("[" + (left + name + right) + "]" + tail, HeaderLine(left + name + right));
  }

  lemma ItemKindsMatch(item: Item)
    requires WellFormed(item)
    ensures AllTerminated(ItemLines(item)) && Kinds(ItemLines(item)) == ItemKinds(item)
  {
    match item
    case Header(left, name, right, tail) =>
      hide *;
      HeaderItem(left, name, right, tail);
    case Entry(_, _, _, _, _, _) =>
      hide *;
      EntryItem(item);
    case Gap =>
      assert "" + "\n" == "\n";
      OneLineItem("", EmptyLine);
    case Note(text) =>
      OneLineItem("#" + text, CommentLine);
    case Idle(text) =>
      IdleKind(text);
      hide Classify;
      OneLineItem(text, IdleLine);
  }

  lemma OneKind(l: string)
    requires l != []
    ensures Kinds([l]) == [Classify(l)]
  {
    hide Classify;
    assert [l][1..] == [];
  }

  lemma {:induction false} DocKindsMatch(doc: seq<Item>)
    requires WellFormedDoc(doc)
    ensures AllTerminated(DocLines(doc))
    ensures Kinds(DocLines(doc)) == DocKinds(doc)
  {
    if doc != [] {
      WellFormedTail(doc);
      hide WellFormed, Classify, ItemLines, ItemKinds, WellFormedDoc, Kinds, Terminated;
      ItemKindsMatch(doc[0]);
      DocKindsMatch(doc[1..]);
      KindsAppend(ItemLines(doc[0]), DocLines(doc[1..]));
    }
  }

  lemma WellFormedTail(doc: seq<Item>)
    requires WellFormedDoc(doc) && doc != []
    ensures WellFormed(doc[0]) && WellFormedDoc(doc[1..])
    ensures doc[0].Entry? && doc[1..] != [] ==> !doc[1..][0].Note?
  {
    hide WellFormed;
    var tail := doc[1..];
    forall i | 0 <= i < |tail| - 1 && tail[i].Entry? ensures !tail[i + 1].Note? {
      assert doc[i + 1].Entry? && doc[i + 1 + 1] == tail[i + 1];
    }
  }

  // ----- splitting the text gives the lines back ----------------------------------------------------

  lemma {:induction false} SplitConcat(ls: seq<string>)
    requires AllTerminated(ls)
    ensures SplitLines(Concat(ls)) == ls
  {
    if ls != [] {
      var l, rest := ls[0], Concat(ls[1..]);
      OneLine(l);
      hide ChunkEnd, Terminated, SplitLines;
      SplitConcat(ls[1..]);
      SplitAppend(l, rest);
    }
  }

  lemma OneLine(l: string)
    requires Terminated(l)
    ensures SplitLines(l) == [l] && l != "" && l[|l| - 1] == '\n'
  {
    IndexFromUnique(l, '\n', 0, |l| - 1);
    IndexFromUnique(l, NUL, 0, |l|);
    assert ChunkEnd(l) == |l| && l[..|l|] == l && l[|l|..] == "";
    hide ChunkEnd;
    assert SplitLines(l) == [l] + SplitLines("");
  }

  // ----- the round trip --------------------------------------------------------------------------------

  lemma {:induction false} RunOfTexts(texts: seq<string>, rest: seq<LineKind>)
    requires rest != [] ==> !rest[0].Continuation?
    ensures RunTexts(TextKinds(texts) + rest) == texts
    ensures AfterRun(TextKinds(texts) + rest) == rest
  {
    hide *;
    if texts == [] {
      NoTexts(texts, rest);
    } else {
      RunOfTexts(texts[1..], rest);
      OneText(texts, rest);
    }
  }

  lemma NoTexts(texts: seq<string>, rest: seq<LineKind>)
    requires texts == [] && (rest != [] ==> !rest[0].Continuation?)
    ensures RunTexts(TextKinds(texts) + rest) == texts
    ensures AfterRun(TextKinds(texts) + rest) == rest
  {
    assert TextKinds(texts) + rest == rest;
  }

  lemma OneText(texts: seq<string>, rest: seq<LineKind>)
    requires texts != []
    ensures RunTexts(TextKinds(texts) + rest) == [texts[0]] + RunTexts(TextKinds(texts[1..]) + rest)
    ensures AfterRun(TextKinds(texts) + rest) == AfterRun(TextKinds(texts[1..]) + rest)
  {
    var ks := TextKinds(texts) + rest;
    assert ks[0] == Continuation(texts[0]) && ks[1..] == TextKinds(texts[1..]) + rest;
  }

  lemma DocKindsStart(doc: seq<Item>)
    ensures DocKinds(doc) == [] <==> doc == []
    ensures doc != [] ==> !StartsBlank(DocKinds(doc)[0]) && (DocKinds(doc)[0].CommentLine? <==> doc[0].Note?)
  {
  }

  /** The grammar reads a written document as what it means. */
  lemma {:induction false} GrammarReadsDoc(section: string, doc: seq<Item>)
    requires WellFormedDoc(doc)
    ensures Verdict(DocKinds(doc)) == Ok
    ensures Entries(section, DocKinds(doc)) == DocCalls(section, doc)
    decreases |doc|
  {
    if doc != [] {
      hide WellFormedDoc, WellFormed, Entries, Verdict, ItemKinds, StartsBlank;
      WellFormedTail(doc);
      DocKindsStart(doc[1..]);
      ItemReads(section, doc[0], DocKinds(doc[1..]));
      GrammarReadsDoc(SectionAfter(section, doc[0]), doc[1..]);
    }
  }

  lemma ItemReads(section: string, item: Item, rest: seq<LineKind>)
    requires WellFormed(item)
    requires rest != [] && item.Entry? ==> !StartsBlank(rest[0]) && !rest[0].CommentLine?
    ensures Verdict(rest) == Ok ==>
              && Verdict(ItemKinds(item) + rest) == Ok
              && Entries(section, ItemKinds(item) + rest)
                 == ItemCalls(section, item) + Entries(SectionAfter(section, item), rest)
  {
    if item.Entry? {
      hide *;
      EntryCalls(section, item);
      if Verdict(rest) == Ok {
        EntryReads(section, item, rest);
        Regroup(item, rest);
      }
    } else {
      PlainReads(section, item, rest);
    }
  }

  lemma Regroup(item: Item, rest: seq<LineKind>)
    requires item.Entry?
    ensures ItemKinds(item) + rest
         == [EntryLine(item.key + item.keyGap, RestOf(item.gap, item.first, item.end))]
            + (TextKinds(TextsOf(item.more)) + rest)
  {
  }

  lemma PlainReads(section: string, item: Item, rest: seq<LineKind>)
    requires WellFormed(item) && !item.Entry?
    ensures Verdict(ItemKinds(item) + rest) == Verdict(rest)
    ensures Entries(section, ItemKinds(item) + rest)
         == ItemCalls(section, item) + Entries(SectionAfter(section, item), rest)
  {
    hide Trim, BlankOnly, Classify, Fit, Neat, Blank;
    if item.Header? {
      HeaderKind(item.left, item.name, item.right, item.tail);
    }
    assert (ItemKinds(item) + rest)[1..] == rest;
  }

  lemma EntryCalls(section: string, item: Item)
    requires item.Entry?
    ensures ItemCalls(section, item) == [Call(section, item.key, ValueOf(item.first, TextsOf(item.more)))]
    ensures SectionAfter(section, item) == section
  {
  }

  lemma EntryReads(section: string, item: Item, rest: seq<LineKind>)
    requires WellFormed(item) && item.Entry?
    requires rest != [] ==> !StartsBlank(rest[0]) && !rest[0].CommentLine?
    requires Verdict(rest) == Ok
    ensures var ks := [EntryLine(item.key + item.keyGap, RestOf(item.gap, item.first, item.end))]
                      + (TextKinds(TextsOf(item.more)) + rest);
            && Verdict(ks) == Ok
            && Entries(section, ks)
               == [Call(section, item.key, ValueOf(item.first, TextsOf(item.more)))] + Entries(section, rest)
  {
    hide Trim, BlankOnly, Entries, Verdict, RunTexts, AfterRun, TextKinds, TextsOf, Neat, Blank, WellKey, WellText,
      ValueOf, RestOf, Read, Classify, Fit;
    var texts := TextsOf(item.more);
    var ks := [EntryLine(item.key + item.keyGap, RestOf(item.gap, item.first, item.end))] + (TextKinds(texts) + rest);
    EntryKind(item.key, item.keyGap, item.gap, item.first, item.end);
    assert ks[1..] == TextKinds(texts) + rest;
    RunOfTexts(texts, rest);
    EntryUnfolds(section, ks);
    if rest == [] {
      var call := Call(section, item.key, ValueOf(item.first, texts));
      NoEntries(section);
      assert [call] + [] == [call];
    }
  }

  lemma NoEntries(section: string)
    ensures Entries(section, []) == []
  {
  }

  /** Parsing the written form of a well-formed document succeeds and makes exactly the document's
      calls, in order, whatever blanks - spaces or tabs - it is written with. */
  lemma PrintThenParse(doc: seq<Item>)
    requires WellFormedDoc(doc)
    ensures ParseText(Print(doc)).status == Ok
    ensures ParseCalls(ParseText(Print(doc))) == DocCalls("", doc)
  {
    var ls := DocLines(doc);
    DocKindsMatch(doc);
    SplitConcat(ls);
    GrammarReadsDoc("", doc);
    hide WellFormedDoc, Kinds, Read, Verdict, Entries, ParseCalls, SplitLines, Classify;
    forall i | 0 <= i < |ls| ensures IsLine(ls[i]) {
      assert Terminated(ls[i]);
    }
    ParseFollowsGrammar(ls);
  }

  // ----- the documentation's own example --------------------------------------------------------------

  /** A comment on one line that fits the line buffer. */
  ghost predicate Remark(c: string) {
    NUL !in c && '\n' !in c && |c| + 2 < LINE_SIZE
  }

  /** The example workspace of the README puts a comment directly below an entry: parsing a file
      that begins like it leaves the line buffer, whatever the comments say and whatever follows. */
  lemma ReadmeExampleFaults(c1: string, c2: string, following: string)
    requires Remark(c1) && Remark(c2)
    ensures ParseText("[do_stuff]\n" + ("#" + c1 + "\n") + "wait = looptest\n" + ("#" + c2 + "\n") + following).status
         == Fault
  {
    hide *;
    var a, b, c, d := "[do_stuff]\n", "#" + c1 + "\n", "wait = looptest\n", "#" + c2 + "\n";
    ReadmeLines(c1, c2);
    ConcatFour(a, b, c, d, following);
    SplitFirst([a, b, c, d], following);
    ReadmeKinds(c1, c2, Kinds(SplitLines(following)));
    ParseIsRead(a + b + c + d + following);
  }

  lemma ParseIsRead(text: string)
    ensures ParseText(text) == Read(START, Kinds(SplitLines(text)))
  {
  }

  lemma ReadmeLines(c1: string, c2: string)
    requires Remark(c1) && Remark(c2)
    ensures AllTerminated(["[do_stuff]\n", "#" + c1 + "\n", "wait = looptest\n", "#" + c2 + "\n"])
  {
    LineEnds("#" + c1);
    LineEnds("#" + c2);
  }

  lemma ConcatFour(a: string, b: string, c: string, d: string, following: string)
    ensures Concat([a, b, c, d]) + following == a + b + c + d + following
  {
    hide Concat;
    ConcatCons([a, b, c, d]);
    ConcatCons([b, c, d]);
    ConcatCons([c, d]);
    ConcatCons([d]);
    NothingConcat();
    assert [a, b, c, d][1..] == [b, c, d] && [b, c, d][1..] == [c, d] && [c, d][1..] == [d] && [d][1..] == [];
    assert d + "" == d && a + (b + (c + d)) == a + b + c + d;
  }

  lemma NothingConcat()
    ensures Concat([]) == ""
  {
  }

  lemma ConcatCons(ls: seq<string>)
    requires ls != []
    ensures Concat(ls) == ls[0] + Concat(ls[1..])
  {
  }

  /** Lines written in front of a text are its first lines. */
  lemma SplitFirst(ls: seq<string>, following: string)
    requires AllTerminated(ls)
    ensures Kinds(SplitLines(Concat(ls) + following)) == Kinds(ls) + Kinds(SplitLines(following))
  {
    hide SplitLines, Kinds, AllTerminated;
    ConcatEnds(ls);
    SplitConcat(ls);
    SplitAppend(Concat(ls), following);
    KindsAppend(ls, SplitLines(following));
  }

  lemma {:induction false} ConcatEnds(ls: seq<string>)
    requires AllTerminated(ls)
    ensures Concat(ls) == "" || Concat(ls)[|Concat(ls)| - 1] == '\n'
  {
    if ls != [] {
      ConcatEnds(ls[1..]);
      assert Terminated(ls[0]);
    }
  }

  lemma ReadmeKinds(c1: string, c2: string, following: seq<LineKind>)
    ensures var top := ["[do_stuff]\n", "#" + c1 + "\n", "wait = looptest\n", "#" + c2 + "\n"];
            Read(START, Kinds(top) + following).status == Fault
  {
    hide *;
    ReadmeHeader();
    ReadmeEntry();
    FourKinds("[do_stuff]\n", "#" + c1 + "\n", "wait = looptest\n", "#" + c2 + "\n");
    RemarkKind(c1);
    RemarkKind(c2);
    ReadmeSizes();
    FourLines("do_stuff", "wait ", " looptest\n", following);
  }

  lemma RemarkKind(c: string)
    ensures Classify("#" + c + "\n") == CommentLine
  {
    hide Trim, IndexFrom;
    assert ("#" + c + "\n")[0] == '#';
  }

  lemma ReadmeSizes()
    ensures |"do_stuff"| < SECTION_SIZE && |"wait"| < KEY_SIZE
  {
  }

  lemma ReadmeHeader()
    ensures Classify("[do_stuff]\n") == HeaderLine("do_stuff")
    ensures Trim("do_stuff") == "do_stuff" && !BlankOnly("do_stuff")
  {
    hide Classify, Trim, BlankOnly, Neat, Blank;
    ReadmeName();
    HeaderKind("", "do_stuff", "", "");
  }

  lemma ReadmeName()
    ensures Blank("") && Neat("do_stuff") && ']' !in "do_stuff"
    ensures "" + "do_stuff" + "" == "do_stuff" && "[" + ("" + "do_stuff" + "") + "]" + "" + "\n" == "[do_stuff]\n"
  {
    NoBlanksAround("do_stuff");
    ReadmeBrackets();
    hide *;
  }

  lemma NoBlanksAround(name: string)
    ensures "" + name + "" == name && "[" + ("" + name + "") + "]" + "" + "\n" == "[" + name + "]\n"
  {
  }

  lemma ReadmeBrackets()
    ensures "[" + "do_stuff" + "]\n" == "[do_stuff]\n"
    ensures Blank("") && Neat("do_stuff") && ']' !in "do_stuff"
  {
  }

  lemma ReadmeEntry()
    ensures Classify("wait = looptest\n") == EntryLine("wait ", " looptest\n")
    ensures Trim("wait ") == "wait" && !BlankOnly(" looptest\n")
  {
    hide Classify, Trim, BlankOnly, Neat, Blank, RestOf, WellKey;
    ReadmeLiterals();
    EntryKind("wait", " ", " ", "looptest", "");
  }

  lemma ReadmeLiterals()
    ensures WellKey("wait") && Blank(" ") && Blank("") && Neat("looptest")
    ensures ("wait" + " ") + "=" + RestOf(" ", "looptest", "") == "wait = looptest\n"
    ensures RestOf(" ", "looptest", "") == " looptest\n" && "wait" + " " == "wait "
  {
  }

  /** Header, comment, entry, comment: the last one faults. */
  lemma FourLines(name: string, key: string, rest: string, following: seq<LineKind>)
    requires !BlankOnly(name) && |Trim(name)| < SECTION_SIZE
    requires !BlankOnly(rest) && |Trim(key)| < KEY_SIZE
    ensures Read(START, [HeaderLine(name), CommentLine, EntryLine(key, rest), CommentLine] + following).status == Fault
  {
    hide Trim, BlankOnly;
    var all := [HeaderLine(name), CommentLine, EntryLine(key, rest), CommentLine] + following;
    var section := Trim(name);
    ReadStep("", all);
    ReadStep(section, all[1..]);
    EntryStep(section, all[1..][1..]);
    assert all[1..][1..][1..][0] == CommentLine;
  }

  lemma FourKinds(a: string, b: string, c: string, d: string)
    ensures Kinds([a, b, c, d]) == [Classify(a), Classify(b), Classify(c), Classify(d)]
  {
    hide Classify;
  }
}
