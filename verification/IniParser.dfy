/** The workspace parser as it runs: character buffers and a mode that survive from line to
    line, and in-place trimming. Every access to a buffer is guarded: one that would leave its
    buffer ends the parse with `Fault`. Each line is proved to take the step of the line machine,
    and to end with `Fault` exactly when the machine says `OutOfBuffer`. */
module IniParser {
  import opened CBytes
  import opened IniMachine
  import IniGrammar
  import IniPrinter

  datatype Mode = StartLine | Section | Key | Value | Multiline

  /** The line buffer holds `l` and its terminator. */
  ghost predicate Loaded(buf: seq<char>, l: string) {
    |buf| == LINE_SIZE && IsLine(l) && buf[|l|] == NUL && forall k :: 0 <= k < |l| ==> buf[k] == l[k]
  }

  // ----- trimming and copying, index by index -----------------------------------------------------

  /** Where the loop over blanks from `i` on stops; None when it leaves the buffer. */
  function FrontStop(buf: seq<char>, i: int): (s: Option<int>)
    ensures s.Some? ==> i <= s.value < |buf| && 0 <= i
    decreases |buf| - i
  {
    if !(0 <= i < |buf|) then None
    else if IsSpace(buf[i]) then FrontStop(buf, i + 1)
    else Some(i)
  }

  /** Where the loop over blanks and newlines from `i` backwards stops. */
  function BackStop(buf: seq<char>, i: int): (e: Option<int>)
    ensures e.Some? ==> 0 <= e.value <= i < |buf|
    decreases i
  {
    if !(0 <= i < |buf|) then None
    else if IsTrailing(buf[i]) then BackStop(buf, i - 1)
    else Some(i)
  }

  /** Where `copy_to_buf` puts the terminator. */
  function CopyEnd(s: int, e: int, outLoc: nat): int {
    (if outLoc > 0 then outLoc + 1 else 0) + (e - s) + 1
  }

  /** All it writes lies in a buffer of that size: the newline, the characters and, behind them or
      in front of the buffer, the terminator. */
  predicate Lands(s: int, e: int, outLoc: nat, size: nat) {
    (outLoc > 0 ==> outLoc < size) && 0 <= CopyEnd(s, e, outLoc) < size
  }

  /** What a buffer that reads as `before` reads as when buf[s..e], both ends included, has been
      copied behind it. With nothing to copy the terminator moves back instead. */
  function CopiedText(buf: seq<char>, s: int, e: int, before: string): string
    requires 0 <= s <= |buf| && e < |buf| && 0 <= CopyEnd(s, e, |before|)
  {
    if s <= e + 1 then Join(before, buf[s..e + 1]) else before[..CopyEnd(s, e, |before|)]
  }

  /** `copy_trimmed_to_buf` from index to result; None when any access leaves its buffer. */
  function Copied(buf: seq<char>, start: int, end: int, before: string, size: nat): Option<string> {
    var s, e := FrontStop(buf, start), BackStop(buf, end);
    if s.None? || e.None? || !Lands(s.value, e.value, |before|, size) then None
    else Some(CopiedText(buf, s.value, e.value, before))
  }

  /** `trim_start_end`. Not ok when a loop has left the line. */
  method TrimStartEnd(line: array<char>, start: int, end: int) returns (ok: bool, s: int, e: int)
    ensures ok <==> FrontStop(line[..], start).Some? && BackStop(line[..], end).Some?
    ensures ok ==> FrontStop(line[..], start) == Some(s) && BackStop(line[..], end) == Some(e)
  {
    s, e := start, end;
    while 0 <= s < line.Length && IsSpace(line[s])
      invariant FrontStop(line[..], s) == FrontStop(line[..], start)
      decreases line.Length - s
    {
      s := s + 1;
    }
    if !(0 <= s < line.Length) {
      return false, s, e;
    }
    while 0 <= e < line.Length && IsTrailing(line[e])
      invariant BackStop(line[..], e) == BackStop(line[..], end)
      decreases e
    {
      e := e - 1;
    }
    ok := 0 <= e < line.Length;
  }

  /** `copy_to_buf`: appends line[s..e] to a string, behind a newline unless it is the first. None
      when a write would leave the buffer. */
  method CopyToBuf(line: array<char>, s: int, e: int, out: array<char>, outLoc: nat, ghost before: string)
    returns (loc: Option<nat>)
    requires line != out && 0 <= s < line.Length && e < line.Length
    requires s <= e ==> NUL !in line[s..e + 1]
    requires outLoc == |before| && (outLoc > 0 ==> StringAt(out[..], 0) == before)
    modifies out
    ensures loc.Some? <==> Lands(s, e, outLoc, out.Length)
    ensures loc.Some? ==>
              var whole := CopiedText(line[..], s, e, before);
              loc.value == |whole| && StringAt(out[..], 0) == whole
  {
    hide IndexFrom, Join;
    var o := outLoc;
    if o > 0 {
      if o >= out.Length {
        return None;
      }
      ReadsBefore(out[..], before);
      out[o] := '\n';
      o := o + 1;
    }
    ghost var was := out[..];
    var ok := CopyChars(line, s, e, out, o);
    var at := o + (e - s) + 1;
    if !ok || at < 0 || at >= out.Length {
      return None;
    }
    out[at] := NUL;
    CopiedReads(line[..], s, e, before, was, out[..]);
    loc := Some(at);
  }

  lemma ReadsBefore(out: seq<char>, before: string)
    requires StringAt(out, 0) == before && |before| < |out|
    ensures NUL !in before && forall k :: 0 <= k < |before| ==> out[k] == before[k]
  {
  }

  /** The characters from `s` to `e`; not ok when one would be written outside the buffer. */
  method CopyChars(line: array<char>, s: int, e: int, out: array<char>, o: nat) returns (ok: bool)
    requires line != out && 0 <= s < line.Length && e < line.Length
    modifies out
    ensures ok <==> s <= e ==> o + (e - s) < out.Length
    ensures ok ==> forall k :: 0 <= k < out.Length ==>
              out[k] == if o <= k <= o + (e - s) then line[s + (k - o)] else old(out[k])
  {
    var i := s;
    while i <= e
      invariant s <= i && (i == s || i <= e + 1)
      invariant s < i ==> o + (i - 1 - s) < out.Length
      invariant forall k :: 0 <= k < out.Length ==>
                  out[k] == if o <= k < o + (i - s) then line[s + (k - o)] else old(out[k])
    {
      if o + (i - s) >= out.Length {
        return false;
      }
      out[o + (i - s)] := line[i];
      i := i + 1;
    }
    ok := true;
  }

  /** What the copy leaves reads as the copied text. */
  lemma CopiedReads(line: seq<char>, s: int, e: int, before: string, was: seq<char>, out: seq<char>)
    requires 0 <= s < |line| && e < |line| && |was| == |out| && Lands(s, e, |before|, |out|)
    requires (s <= e ==> NUL !in line[s..e + 1]) && NUL !in before
    requires forall k :: 0 <= k < |before| && k < |out| ==> was[k] == before[k]
    requires before != "" ==> was[|before|] == '\n'
    requires var o := if before != "" then |before| + 1 else 0;
             forall k :: 0 <= k < |out| && k != CopyEnd(s, e, |before|) ==>
               out[k] == if o <= k <= o + (e - s) then line[s + (k - o)] else was[k]
    requires out[CopyEnd(s, e, |before|)] == NUL
    ensures var whole := CopiedText(line, s, e, before);
            |whole| == CopyEnd(s, e, |before|) && StringAt(out, 0) == whole
  {
    var whole := CopiedText(line, s, e, before);
    var o := if before != "" then |before| + 1 else 0;
    if s <= e + 1 {
      forall k | 0 <= k < |whole| ensures out[k] == whole[k] && whole[k] != NUL {
        if k >= o {
          assert whole[k] == line[s..e + 1][k - o];
        }
      }
    }
    EndsAt(out, whole);
  }

  lemma EndsAt(buf: seq<char>, s: string)
    requires |s| < |buf| && buf[|s|] == NUL && NUL !in s
    requires forall k :: 0 <= k < |s| ==> buf[k] == s[k]
    ensures StringAt(buf, 0) == s
  {
    IndexFromUnique(buf, NUL, 0, |s|);
    assert buf[0..|s|] == s;
  }

  method CopyTrimmedToBuf(line: array<char>, ghost l: string, start: int, end: int, out: array<char>,
                          outLoc: nat, ghost before: string) returns (loc: Option<nat>)
    requires Loaded(line[..], l) && line != out && end < |l|
    requires outLoc == |before| && (outLoc > 0 ==> StringAt(out[..], 0) == before)
    modifies out
    ensures var whole := Copied(line[..], start, end, before, out.Length);
            if whole.None? then loc.None?
            else loc == Some(|whole.value|) && StringAt(out[..], 0) == whole.value
  {
    hide StringAt, CopiedText, FrontStop, BackStop;
    var ok, s, e := TrimStartEnd(line, start, end);
    if !ok {
      return None;
    }
    assert s <= e ==> forall k :: s <= k <= e ==> line[k] == l[k];
    loc := CopyToBuf(line, s, e, out, outLoc, before);
  }

  // ----- what a copy makes of a stretch of a line ---------------------------------------------------

  /** A stretch of the line the trimming loops can handle: it holds a character to keep, or it
      is empty (but for the newline) between two characters that stop the loops. */
  ghost predicate Trimmable(buf: seq<char>, l: string, start: nat, end: nat) {
    && start <= end <= |l| < |buf|
    && (Trim(l[start..end]) != "" ||
        (&& 1 <= start && !IsSpace(buf[start]) && !IsTrailing(buf[start - 1])
         && (end == start || (end == start + 1 && l[start] == '\n'))))
  }

  lemma {:induction false} FrontFrom(buf: seq<char>, i: int, s: int)
    requires 0 <= i <= s < |buf| && !IsSpace(buf[s])
    requires forall k :: i <= k < s ==> IsSpace(buf[k])
    ensures FrontStop(buf, i) == Some(s)
    decreases s - i
  {
    if i < s {
      FrontFrom(buf, i + 1, s);
    }
  }

  lemma {:induction false} BackFrom(buf: seq<char>, i: int, e: int)
    requires -1 <= e <= i < |buf| && (e >= 0 ==> !IsTrailing(buf[e]))
    requires forall k :: e < k <= i ==> IsTrailing(buf[k])
    ensures BackStop(buf, i) == if e >= 0 then Some(e) else None
    decreases i - e
  {
    if e < i {
      BackFrom(buf, i - 1, e);
    }
  }

  /** The trimmed part of a string lies between two stops. */
  lemma TrimBounds(s: string) returns (i: nat, j: nat)
    ensures i <= j <= |s| && Trim(s) == s[i..j]
    ensures forall k :: 0 <= k < i ==> IsSpace(s[k])
    ensures forall k :: j <= k < |s| ==> IsTrailing(s[k])
    ensures i < j ==> !IsSpace(s[i]) && !IsTrailing(s[j - 1])
  {
    hide TrimLeft, TrimRight;
    var t := TrimRight(s);
    j := |t|;
    i := j - |TrimLeft(t)|;
  }

  /** The stops around a stretch that can be trimmed. */
  lemma TrimmableStops(buf: seq<char>, l: string, start: nat, end: nat) returns (s: nat, e: nat)
    requires Loaded(buf, l) && Trimmable(buf, l, start, end)
    ensures start <= s <= e <= end <= |l| < |buf| && l[s..e] == Trim(l[start..end])
    ensures FrontStop(buf, start) == Some(s) && BackStop(buf, end - 1) == Some(e - 1)
  {
    hide Trim, FrontStop, BackStop, IsLine;
    var content := l[start..end];
    if Trim(content) != "" {
      var i, j := TrimBounds(content);
      s, e := start + i, start + j;
      StretchStops(buf, l, start, end, i, j);
    } else {
      s, e := start, start;
      FrontFrom(buf, start, start);
      BackFrom(buf, end - 1, start - 1);
    }
  }

  lemma StretchStops(buf: seq<char>, l: string, start: nat, end: nat, i: nat, j: nat)
    requires Loaded(buf, l) && start <= end <= |l| && i < j <= end - start
    requires var s := l[start..end];
             && (forall k :: 0 <= k < i ==> IsSpace(s[k])) && !IsSpace(s[i])
             && (forall k :: j <= k < |s| ==> IsTrailing(s[k])) && !IsTrailing(s[j - 1])
    ensures FrontStop(buf, start) == Some(start + i) && BackStop(buf, end - 1) == Some(start + j - 1)
    ensures l[start + i..start + j] == l[start..end][i..j]
  {
    hide FrontStop, BackStop;
    var s := l[start..end];
    assert forall k :: 0 <= k < |s| ==> s[k] == l[start + k] == buf[start + k];
    assert forall k :: start <= k < end ==> buf[k] == s[k - start];
    FrontFrom(buf, start, start + i);
    BackFrom(buf, end - 1, start + j - 1);
  }

  /** Copying such a stretch stays in its buffers exactly when the whole text fits. */
  lemma TrimmableCopied(buf: seq<char>, l: string, start: nat, end: nat, before: string, size: nat)
    requires Loaded(buf, l) && Trimmable(buf, l, start, end)
    ensures var whole := Join(before, Trim(l[start..end]));
            Copied(buf, start, end - 1, before, size) == if |whole| < size then Some(whole) else None
  {
    hide Trim, Trimmable, FrontStop, BackStop, IsLine;
    var s, e := TrimmableStops(buf, l, start, end);
    assert forall k :: s <= k < e ==> buf[k] == l[k];
    assert buf[s..e] == l[s..e];
    JoinSize(before, l[s..e]);
  }

  lemma JoinSize(before: string, text: string)
    ensures |Join(before, text)| == CopyEnd(0, |text| - 1, |before|)
  {
  }

  /** Blanks only, right behind a character that is not one: the loops pass each other and the
      terminator falls in front of the buffer. */
  lemma BlankCopied(buf: seq<char>, start: int, end: int, size: nat)
    requires 1 <= start < end <= |buf| && IsSpace(buf[start]) && !IsTrailing(buf[start - 1])
    requires forall k :: start <= k < end ==> IsTrailing(buf[k])
    ensures Copied(buf, start, end - 1, "", size) == None
  {
    BackFrom(buf, end - 1, start - 1);
    assert FrontStop(buf, start) == FrontStop(buf, start + 1);
    hide FrontStop, BackStop;
  }

  /** Nothing but blanks from the start of the line on: the backward loop leaves the line. */
  lemma LineBlankCopied(buf: seq<char>, start: int, end: int, before: string, size: nat)
    requires 0 <= end <= |buf| && forall k :: 0 <= k < end ==> IsTrailing(buf[k])
    ensures Copied(buf, start, end - 1, before, size) == None
  {
    BackFrom(buf, end - 1, -1);
  }

  // ----- where a line stands in the middle of being read ----------------------------------------

  /** The parser's variables as a value; strings are what the buffers read as. */
  datatype Vars = Vars(mode: Mode, saveLoc: nat, section: string, key: string, value: string,
                       valueLoc: nat, calls: seq<Call>)

  function StateOf(v: Vars): State {
    State(v.section, if v.mode == Value then Some(Pending(v.key, v.value)) else None)
  }

  /** The length the value buffer is said to have is the one it has. */
  ghost predicate Counted(v: Vars) {
    v.mode == Value && v.valueLoc > 0 ==> |v.value| == v.valueLoc
  }

  ghost predicate Consistent(v: Vars) {
    v.mode == Value ==> |v.value| == v.valueLoc
  }

  /** What the value buffer counts as holding. */
  function Before(v: Vars): string {
    if v.valueLoc > 0 then v.value else ""
  }

  /** The calls made once the open value, if any, has been handed over. */
  function Closed(v: Vars): seq<Call> {
    v.calls + Flush(StateOf(v))
  }

  /** In an indented line: the blanks in front are being skipped, or have been. */
  ghost predicate InIndent(v0: Vars, l: string, i: nat, v: Vars) {
    && v0.mode == Value && v == v0.(mode := v.mode, saveLoc := v.saveLoc)
    && v.saveLoc <= |l| && (forall k :: 0 <= k < v.saveLoc ==> IsSpace(l[k]))
    && (v.mode == Multiline || v.mode == Value)
    && (v.mode == Multiline <==> forall k :: 0 <= k < i && k < |l| ==> IsSpace(l[k]))
  }

  ghost predicate InHeader(v0: Vars, l: string, i: nat, v: Vars)
    requires |l| >= 1
  {
    var k := IndexFrom(l, ']', 1);
    if i <= k then v == v0.(mode := Section, saveLoc := 1, valueLoc := 0, calls := Closed(v0))
    else
      && !BlankOnly(l[1..k]) && |Trim(l[1..k])| < SECTION_SIZE
      && v == v0.(mode := StartLine, saveLoc := 0, valueLoc := 0, calls := Closed(v0), section := Trim(l[1..k]))
  }

  ghost predicate InEntry(v0: Vars, l: string, i: nat, v: Vars)
    requires |l| >= 1
  {
    var k := IndexFrom(l, '=', 1);
    if i <= k then v == v0.(mode := Key, saveLoc := 0, valueLoc := 0, calls := Closed(v0))
    else
      && |Trim(l[..k])| < KEY_SIZE
      && v == v0.(mode := Value, saveLoc := k + 1, valueLoc := 0, calls := Closed(v0), key := Trim(l[..k]))
  }

  /** The variables when the first `i` characters of line `l` have been read, starting from `v0`. */
  ghost predicate Reading(v0: Vars, l: string, i: nat, v: Vars)
    requires 1 <= i <= |l|
  {
    if IsSpace(l[0]) then InIndent(v0, l, i, v)
    else if l[0] == '[' then InHeader(v0, l, i, v)
    else InEntry(v0, l, i, v)
  }

  /** Lines that are read past their first character. */
  predicate ReadOn(l: string) {
    l != "" && l[0] != '\n' && l[0] != '#'
  }

  class Parser {
    const line: array<char>
    const section: array<char>
    const key: array<char>
    const value: array<char>
    var mode: Mode
    var saveLoc: nat
    var valueLoc: nat
    /** What the handler has been called with. */
    var calls: seq<Call>

    ghost predicate Separate()
      reads this
    {
      && line.Length == LINE_SIZE && section.Length == SECTION_SIZE
      && key.Length == KEY_SIZE && value.Length == VALUE_SIZE
      && line != section && line != key && line != value
      && section != key && section != value && key != value
    }

    ghost function View(): Vars
      reads this, section, key, value
    {
      Vars(mode, saveLoc, StringAt(section[..], 0), StringAt(key[..], 0), StringAt(value[..], 0),
           valueLoc, calls)
    }

    ghost predicate Valid()
      reads this, section, key, value
    {
      Separate() && Consistent(View())
    }

    constructor ()
      ensures Valid() && fresh(line) && fresh(section) && fresh(key) && fresh(value)
      ensures StateOf(View()) == START && calls == []
    {
      line := new char[LINE_SIZE](_ => NUL);
      section := new char[SECTION_SIZE](_ => NUL);
      key := new char[KEY_SIZE](_ => NUL);
      value := new char[VALUE_SIZE](_ => NUL);
      mode, saveLoc, valueLoc, calls := StartLine, 0, 0, [];
      new;
      EndsAt(section[..], "");
    }

    /** What happens at a line's first character; `go` says whether reading goes on. */
    method FirstChar(ghost l: string) returns (go: bool, status: Status)
      requires Valid() && Loaded(line[..], l) && l != ""
      modifies this`mode, this`saveLoc, this`valueLoc, this`calls
      ensures Separate()
      ensures status == if IsSpace(l[0]) && old(mode) != Value then Invalid else Ok
      ensures go == (status == Ok && ReadOn(l))
      ensures status == Invalid ==> View() == old(View())
      ensures go ==> Reading(old(View()), l, 1, View())
      ensures l[0] == '\n' || l[0] == '#' ==>
                && calls == Closed(old(View())) && View().section == old(View()).section
                && (mode == Value <==> l[0] == '#' && old(mode) == Value)
                && Counted(View())
    {
      hide IndexFrom, Trim;
      ghost var v0 := View();
      var c := line[0];
      assert c == l[0];
      go, status := true, Ok;
      if IsSpace(c) {
        if mode == Value {
          mode := Multiline;
          saveLoc := 1;
          IndentStarts(l);
        } else {
          go, status := false, Invalid;
        }
      } else {
        if mode == Value {
          HandOver();
        }
        assert calls == Closed(v0);
        if c == '\n' {
          if mode != Multiline {
            mode, saveLoc, valueLoc := StartLine, 0, 0;
          }
          go := false;
        } else if c == '[' {
          mode, saveLoc, valueLoc := Section, 1, 0;
        } else if c == '#' {
          go := false;
        } else {
          mode, saveLoc, valueLoc := Key, 0, 0;
        }
      }
    }

    /** The handler call for the open value. */
    method HandOver()
      requires Separate()
      modifies this`calls
      ensures calls == old(calls) + [Call(View().section, View().key, View().value)]
    {
      calls := calls + [Call(ReadBack(section), ReadBack(key), ReadBack(value))];
    }

    /** The string a handler reads through a pointer to the buffer. */
    function ReadBack(buf: array<char>): string
      reads buf
    {
      StringAt(buf[..], 0)
    }

    /** What happens at character `i` > 0; not ok when closing a name or key leaves a buffer. */
    method NextChar(ghost l: string, i: nat) returns (ok: bool)
      requires Separate() && Loaded(line[..], l) && 1 <= i < |l|
      modifies this`mode, this`saveLoc, section, key
      ensures ok <==> CanClose(line[..], i, old(View()))
      ensures ok ==> View() == AfterChar(line[..], i, old(View()))
    {
      var c := line[i];
      ok := true;
      hide Loaded, StringAt, Copied;
      if mode == Section {
        if c == ']' {
          ok := HeaderCloses(l, i);
        }
      } else if mode == Key {
        if c == '=' {
          ok := KeyCloses(l, i);
        }
      } else if mode == Multiline {
        if IsSpace(c) {
          saveLoc := i;
        } else {
          mode := Value;
        }
      }
    }

    /** Stores the section name. */
    method HeaderCloses(ghost l: string, i: nat) returns (ok: bool)
      requires Separate() && Loaded(line[..], l) && 1 <= i < |l|
      modifies this`mode, this`saveLoc, section
      ensures var name := Copied(line[..], old(saveLoc), i - 1, "", SECTION_SIZE);
              && ok == name.Some?
              && (ok ==> View() == old(View()).(mode := StartLine, saveLoc := 0, section := name.value))
    {
      hide Loaded, StringAt, Copied;
      var loc := CopyTrimmedToBuf(line, l, saveLoc, i - 1, section, 0, "");
      ok := loc.Some?;
      mode := StartLine;
      saveLoc := 0;
    }

    /** Stores the key. */
    method KeyCloses(ghost l: string, i: nat) returns (ok: bool)
      requires Separate() && Loaded(line[..], l) && 1 <= i < |l|
      modifies this`mode, this`saveLoc, key
      ensures var name := Copied(line[..], 0, i - 1, "", KEY_SIZE);
              && ok == name.Some?
              && (ok ==> View() == old(View()).(mode := Value, saveLoc := i + 1, key := name.value))
    {
      hide Loaded, StringAt, Copied;
      var loc := CopyTrimmedToBuf(line, l, 0, i - 1, key, 0, "");
      ok := loc.Some?;
      mode := Value;
      saveLoc := i + 1;
    }

    /** The loop body: the first character opens the line and may already end it. */
    method OneChar(ghost l: string, i: nat, ghost v0: Vars) returns (go: bool, status: Status)
      requires Separate() && Loaded(line[..], l) && i < |l|
      requires Consistent(v0) && Midway(v0, l, i, View())
      modifies this`mode, this`saveLoc, this`valueLoc, this`calls, section, key
      ensures go ==> status == Ok && Midway(v0, l, i + 1, View())
      ensures !go ==> Ended(line[..], v0, l, i, status, View())
    {
      hide StepLine, Reading, StringAt, IsLine, ReadEnd, StateOf, Loaded;
      if i == 0 {
        LoadedLine(line[..], l);
        go, status := FirstChar(l);
        if !go {
          StoppedLine(line[..], v0, l, status, View());
        }
      } else {
        NextReads(line[..], v0, l, i, View());
        hide View, AfterChar, CanClose;
        go := NextChar(l, i);
        status := if go then Ok else Fault;
      }
    }

    /** The character loop. */
    method ReadChars(ghost l: string) returns (status: Status, i: nat)
      requires Valid() && Loaded(line[..], l)
      modifies this`mode, this`saveLoc, this`valueLoc, this`calls, section, key
      ensures line[..] == old(line[..]) && i <= |l|
      ensures Ended(line[..], old(View()), l, i, status, View())
    {
      hide StepLine, Midway, Ended, StringAt, Loaded, StateOf, Consistent, IsLine, IndexFrom;
      i := 0;
      ghost var v0, buf := View(), line[..];
      LineEnd(buf, l);
      Untouched(v0, l);
      while line[i] != NUL
        invariant 0 <= i <= |l| < line.Length && line[..] == buf && Midway(v0, l, i, View())
        decreases |l| - i
      {
        var go;
        go, status := OneChar(l, i, v0);
        if !go {
          return;
        }
        i := i + 1;
      }
      status := Ok;
      WholeLine(buf, v0, l, View());
    }

    /** `parse_line`: one step of the line machine, and `Fault` exactly when the machine says that
        the line leaves a buffer. */
    method ParseLine(ghost l: string) returns (status: Status)
      requires Valid() && Loaded(line[..], l)
      modifies this`mode, this`saveLoc, this`valueLoc, this`calls, section, key, value
      ensures status == Fault <==> StepLine(StateOf(old(View())), l).OutOfBuffer?
      ensures status != Fault ==> Valid()
      ensures Stepped(old(View()), l, status, View())
    {
      hide StepLine, StringAt, Copied, Ended, Loaded, Stepped, StateOf, Finishes;
      var i: int;
      ghost var v0 := View();
      status, i := ReadChars(l);
      LineDone(line[..], v0, l, i, status, View());
      if status == Ok && mode == Value {
        var loc := CopyTrimmedToBuf(line, l, saveLoc, i - 1, value, valueLoc, Before(View()));
        if loc.None? {
          status := Fault;
        } else {
          valueLoc := loc.value;
        }
      }
      SteppedFault(v0, l, status, View());
    }

    /** Reads the next line into the buffer: up to and with a newline, or until it is full. */
    method Fgets(text: string, pos: nat) returns (next: nat)
      requires Separate() && pos < |text|
      modifies line
      ensures next == pos + ChunkEnd(text[pos..]) && pos < next <= |text|
      ensures next - pos <= 511 && forall k :: pos <= k < next - 1 ==> text[k] != '\n'
      ensures next == |text| || next - pos == 511 || text[next - 1] == '\n'
      ensures Loaded(line[..], StringAt(text[pos..next], 0))
    {
      var n := 0;
      ghost var rest := text[pos..];
      while pos + n < |text| && n < LINE_SIZE - 1 && (n == 0 || text[pos + n - 1] != '\n')
        invariant 0 <= n <= LINE_SIZE - 1 && pos + n <= |text|
        invariant forall k :: 0 <= k < n ==> line[k] == rest[k]
        invariant forall k :: 0 <= k < n - 1 ==> rest[k] != '\n'
      {
        line[n] := text[pos + n];
        n := n + 1;
      }
      line[n] := NUL;
      next := pos + n;
      ChunkIs(rest, n);
      hide ChunkEnd;
      assert rest[..n] == text[pos..next];
      Delivered(line[..], rest[..n]);
    }
  }

  lemma ChunkIs(rest: string, n: nat)
    requires 0 < n < LINE_SIZE && n <= |rest|
    requires forall k :: 0 <= k < n - 1 ==> rest[k] != '\n'
    requires n == |rest| || n == LINE_SIZE - 1 || rest[n - 1] == '\n'
    ensures ChunkEnd(rest) == n
  {
    if rest[n - 1] == '\n' {
      IndexFromUnique(rest, '\n', 0, n - 1);
    }
  }

  /** The parser sees a chunk up to its first NUL, or up to the terminator behind it. */
  lemma Delivered(buf: seq<char>, chunk: string)
    requires |buf| == LINE_SIZE && |chunk| < LINE_SIZE && buf[|chunk|] == NUL
    requires forall k :: 0 <= k < |chunk| ==> buf[k] == chunk[k]
    requires forall k :: 0 <= k < |chunk| - 1 ==> chunk[k] != '\n'
    ensures Loaded(buf, StringAt(chunk, 0))
  {
    var l := StringAt(chunk, 0);
    assert |l| == IndexFrom(chunk, NUL, 0);
    hide IndexFrom;
    assert forall k :: 0 <= k < |l| ==> l[k] == chunk[k];
  }

  /** `ini_parse`: ends like the line machine - leaving a buffer exactly when the machine says so -
      and, if it does not leave one, has made the machine's calls, the value still open at the end
      included. */
  method IniParse(text: string) returns (status: Status, calls: seq<Call>)
    ensures status == ParseText(text).status
    ensures status != Fault ==> calls == ParseCalls(ParseText(text))
  {
    hide StepLine, ReadText, StringAt, StateOf, ParseText, ChunkEnd, Loaded, Stepped, IndexFrom;
    var p := new Parser();
    var pos := 0;
    status := Ok;
    ghost var whole := ParseText(text);
    StartOfText(text);
    while pos < |text|
      invariant 0 <= pos <= |text| && p.Valid() && status == Ok
      invariant fresh(p) && fresh(p.line) && fresh(p.section) && fresh(p.key) && fresh(p.value)
      invariant whole == Preceded(p.calls, ReadText(StateOf(p.View()), text[pos..]))
      decreases |text| - pos
    {
      ghost var v0 := p.View();
      var next := p.Fgets(text, pos);
      status := p.ParseLine(StringAt(text[pos..next], 0));
      LineTaken(whole, v0, text, pos, next, status, p.View());
      if status != Ok {
        return status, p.calls;
      }
      pos := next;
    }
    EndOfText(whole, p.View(), text);
    if p.mode == Value {
      p.HandOver();
    }
    calls := p.calls;
  }

  lemma StartOfText(text: string)
    ensures ParseText(text) == Preceded([], ReadText(START, text[0..]))
  {
    hide Read, SplitLines, Kinds;
    assert text[0..] == text;
    IniGrammar.PrecededTwice([], [], ParseText(text));
  }

  /** Reading the rest of a file. */
  function ReadText(st: State, rest: string): Outcome {
    Read(st, Kinds(SplitLines(rest)))
  }

  lemma ReadTextStep(st: State, rest: string)
    requires rest != ""
    ensures var step := StepLine(st, StringAt(rest[..ChunkEnd(rest)], 0));
            ReadText(st, rest) ==
              if step.Stray? then Outcome([], Invalid, st)
              else if step.OutOfBuffer? then Outcome([], Fault, st)
              else Preceded(step.calls, ReadText(step.st, rest[ChunkEnd(rest)..]))
  {
    hide ChunkEnd, Classify, StepKind, StringAt, SplitLines;
    IniGrammar.SplitStep(rest);
    IniGrammar.KindsCons(SplitLines(rest));
    var more := SplitLines(rest[ChunkEnd(rest)..]);
    hide Kinds;
    assert ([StringAt(rest[..ChunkEnd(rest)], 0)] + more)[1..] == more;
    var k := Classify(StringAt(rest[..ChunkEnd(rest)], 0));
    assert ([k] + Kinds(more))[1..] == Kinds(more);
  }

  lemma LineTaken(whole: Outcome, v0: Vars, text: string, pos: nat, next: nat, status: Status, v: Vars)
    requires pos < |text| && next == pos + ChunkEnd(text[pos..]) && next <= |text|
    requires whole == Preceded(v0.calls, ReadText(StateOf(v0), text[pos..]))
    requires Stepped(v0, StringAt(text[pos..next], 0), status, v)
    ensures status == Ok ==> whole == Preceded(v.calls, ReadText(StateOf(v), text[next..]))
    ensures status != Ok ==> whole.status == status
    ensures status == Invalid ==> ParseCalls(whole) == v.calls
  {
    hide ChunkEnd, StepLine, StateOf, StringAt, ReadText;
    ReadTextStep(StateOf(v0), text[pos..]);
    assert text[pos..][..next - pos] == text[pos..next] && text[pos..][next - pos..] == text[next..];
    var step := StepLine(StateOf(v0), StringAt(text[pos..next], 0));
    if step.Next? {
      IniGrammar.PrecededTwice(v0.calls, step.calls, ReadText(step.st, text[next..]));
    } else {
      assert v0.calls + [] == v0.calls;
    }
  }

  lemma EndOfText(whole: Outcome, v: Vars, text: string)
    requires whole == Preceded(v.calls, ReadText(StateOf(v), text[|text|..]))
    ensures whole.status == Ok
    ensures ParseCalls(whole)
         == if v.mode == Value then v.calls + [Call(v.section, v.key, v.value)] else v.calls
  {
    assert text[|text|..] == "";
    assert v.calls + [] == v.calls;
  }

  /** `v` is where reading line `l` from `v0` ends, as the line machine says. */
  ghost predicate Stepped(v0: Vars, l: string, status: Status, v: Vars) {
    var step := StepLine(StateOf(v0), l);
    if step.OutOfBuffer? then status == Fault
    else if step.Stray? then status == Invalid && v.calls == v0.calls
    else status == Ok && StateOf(v) == step.st && v.calls == v0.calls + step.calls
  }

  lemma SteppedFault(v0: Vars, l: string, status: Status, v: Vars)
    requires Stepped(v0, l, status, v)
    ensures status == Fault <==> StepLine(StateOf(v0), l).OutOfBuffer?
  {
    hide StepLine;
  }

  /** The final copy completes the step, or leaves a buffer where the machine says so. */
  lemma LineDone(buf: seq<char>, v0: Vars, l: string, n: nat, status: Status, v: Vars)
    requires Ended(buf, v0, l, n, status, v)
    ensures if status == Ok && v.mode == Value then
              && Counted(v)
              && var whole := Copied(buf, v.saveLoc, n - 1, Before(v), VALUE_SIZE);
                 if whole.None? then Stepped(v0, l, Fault, v)
                 else Stepped(v0, l, Ok, v.(value := whole.value, valueLoc := |whole.value|))
            else (status != Fault ==> v.mode != Value) && Stepped(v0, l, status, v)
    ensures forall w: Vars :: Stepped(v0, l, Fault, v) ==> Stepped(v0, l, Fault, w)
  {
    hide StepLine, Copied;
  }

  lemma LoadedLine(buf: seq<char>, l: string)
    requires Loaded(buf, l)
    ensures IsLine(l)
  {
  }

  /** The loop stops at the terminator and not before. */
  lemma LineEnd(buf: seq<char>, l: string)
    requires Loaded(buf, l)
    ensures |l| < |buf| && buf[|l|] == NUL
    ensures forall k :: 0 <= k < |l| ==> buf[k] != NUL
  {
  }

  /** Where a line stands once its characters are read: given up inside a copy that leaves its
      buffer, refused, or one copy short of the line machine's step. */
  ghost predicate Ended(buf: seq<char>, v0: Vars, l: string, n: nat, status: Status, v: Vars) {
    if status == Fault then StepLine(StateOf(v0), l).OutOfBuffer?
    else ReadEnd(buf, v0, l, n, status, v)
  }

  ghost predicate ReadEnd(buf: seq<char>, v0: Vars, l: string, n: nat, status: Status, v: Vars) {
    if StepLine(StateOf(v0), l).Stray? then status == Invalid && v.mode != Value && v.calls == v0.calls
    else status == Ok && Finishes(buf, v0, l, n, v)
  }

  ghost predicate Finishes(buf: seq<char>, v0: Vars, l: string, n: nat, v: Vars) {
    var step := StepLine(StateOf(v0), l);
    if v.mode != Value then
      step.Next? && step.st == State(v.section, None) && v.calls == v0.calls + step.calls
    else
      && Counted(v)
      && var whole := Copied(buf, v.saveLoc, n - 1, Before(v), VALUE_SIZE);
         if whole.None? then step.OutOfBuffer?
         else
           && step.Next? && step.st == State(v.section, Some(Pending(v.key, whole.value)))
           && v.calls == v0.calls + step.calls
  }

  /** A line whose first character ends it. */
  lemma StoppedLine(buf: seq<char>, v0: Vars, l: string, status: Status, v: Vars)
    requires Loaded(buf, l) && l != ""
    requires status == if IsSpace(l[0]) && v0.mode != Value then Invalid else Ok
    requires !(status == Ok && ReadOn(l))
    requires status == Invalid ==> v == v0
    requires l[0] == '\n' || l[0] == '#' ==>
               && v.calls == Closed(v0) && v.section == v0.section
               && (v.mode == Value <==> l[0] == '#' && v0.mode == Value) && Counted(v)
    ensures Ended(buf, v0, l, 0, status, v)
  {
    hide Trim, IndexFrom, Copied;
    LineBlankCopied(buf, v.saveLoc, 0, Before(v), VALUE_SIZE);
    assert v0.calls + [] == v0.calls;
  }

  lemma WholeLine(buf: seq<char>, v0: Vars, l: string, v: Vars)
    requires Loaded(buf, l) && Consistent(v0) && Midway(v0, l, |l|, v)
    ensures Ended(buf, v0, l, |l|, Ok, v)
  {
    hide Trim, IndexFrom, Finishes, InIndent, InHeader, InEntry, Classify, StepKind, Copied, IsLine, Consistent;
    if l == "" {
      WholeNothing(buf, v0, v);
    } else if IsSpace(l[0]) {
      WholeIndent(buf, v0, l, v);
    } else if l[0] == '[' {
      WholeHeader(buf, v0, l, v);
    } else {
      WholeEntry(buf, v0, l, v);
    }
  }

  /** A line that begins with NUL is over at once. */
  lemma WholeNothing(buf: seq<char>, v0: Vars, v: Vars)
    requires Loaded(buf, "") && Consistent(v0) && v == v0
    ensures StepLine(StateOf(v0), "") != Stray && Finishes(buf, v0, "", 0, v)
  {
    hide Copied;
    LineBlankCopied(buf, v.saveLoc, 0, Before(v), VALUE_SIZE);
    assert v0.calls + [] == v0.calls;
  }

  lemma WholeHeader(buf: seq<char>, v0: Vars, l: string, v: Vars)
    requires ReadOn(l) && l[0] == '[' && InHeader(v0, l, |l|, v)
    ensures StepLine(StateOf(v0), l) != Stray && Finishes(buf, v0, l, |l|, v)
  {
    hide Trim, BlankOnly, Copied;
  }

  lemma WholeIndent(buf: seq<char>, v0: Vars, l: string, v: Vars)
    requires Loaded(buf, l) && Consistent(v0) && l != "" && IsSpace(l[0]) && InIndent(v0, l, |l|, v)
    ensures StepLine(StateOf(v0), l) != Stray && Finishes(buf, v0, l, |l|, v)
  {
    hide Trim, IndexFrom, Copied, IsLine;
    LineEnd(buf, l);
    assert v0.calls + [] == v0.calls;
    if v.mode != Value {
      AllBlank(l);
    } else if Trim(l) != "" {
      TrimDrop(l, v.saveLoc);
      assert l[v.saveLoc..|l|] == l[v.saveLoc..];
      TrimmableCopied(buf, l, v.saveLoc, |l|, Before(v), VALUE_SIZE);
      hide Loaded;
    } else {
      NotBlankTail(l);
      AllTrimmed(l);
      LineBlankCopied(buf, v.saveLoc, |l|, Before(v), VALUE_SIZE);
    }
  }

  /** A line with something else than blanks is not a blank tail. */
  lemma NotBlankTail(l: string)
    requires IsLine(l) && exists k :: 0 <= k < |l| && !IsSpace(l[k])
    ensures !Classify(l).BlankTail?
  {
    if Trim(l) == "" {
      AllTrimmed(l);
      hide Trim;
      var k :| 0 <= k < |l| && !IsSpace(l[k]);
      assert l[k] == '\n';
    }
  }

  lemma AllBlank(s: string)
    requires forall k :: 0 <= k < |s| ==> IsSpace(s[k])
    ensures Trim(s) == ""
  {
    IniPrinter.TrimIs(s, 0, 0);
  }

  /** Blanks in front do not matter to trimming. */
  lemma TrimDrop(s: string, n: nat)
    requires n <= |s| && forall k :: 0 <= k < n ==> IsSpace(s[k])
    requires Trim(s) != ""
    ensures Trim(s[n..]) == Trim(s)
  {
    var b := |TrimRight(s)|;
    var a := b - |Trim(s)|;
    hide TrimLeft, TrimRight;
    assert Trim(s) == s[a..b];
    assert !IsSpace(s[a]) && !IsTrailing(s[b - 1]);
    var t := s[n..];
    assert forall k :: 0 <= k < |t| ==> t[k] == s[n + k];
    IniPrinter.TrimIs(t, a - n, b - n);
    assert t[a - n..b - n] == s[a..b];
  }

  lemma WholeEntry(buf: seq<char>, v0: Vars, l: string, v: Vars)
    requires Loaded(buf, l) && ReadOn(l) && !IsSpace(l[0]) && l[0] != '[' && InEntry(v0, l, |l|, v)
    ensures StepLine(StateOf(v0), l) != Stray && Finishes(buf, v0, l, |l|, v)
  {
    hide Trim, Copied, IsLine, BlankOnly;
    var k := IndexFrom(l, '=', 1);
    if k < |l| {
      var rest := l[k + 1..];
      assert Classify(l) == EntryLine(l[..k], rest) && rest == l[k + 1..|l|];
      RestCopied(buf, l, k);
      JoinNothing(Trim(rest));
      hide IndexFrom, Loaded;
    }
  }

  lemma JoinNothing(text: string)
    ensures Join("", text) == text
  {
  }

  /** The rest of an entry line: its copy leaves the value buffer exactly when it is blank but not
      empty. */
  lemma RestCopied(buf: seq<char>, l: string, k: nat)
    requires Loaded(buf, l) && k < |l| && l[k] == '='
    ensures Copied(buf, k + 1, |l| - 1, "", VALUE_SIZE)
         == if BlankOnly(l[k + 1..]) then None else Some(Trim(l[k + 1..]))
  {
    hide Trim, Copied;
    var rest := l[k + 1..];
    assert rest == l[k + 1..|l|];
    if Trim(rest) == "" {
      AllTrimmed(rest);
      assert forall j :: k + 1 <= j < |l| ==> buf[j] == l[j] == rest[j - (k + 1)];
    }
    if BlankOnly(rest) {
      BlankCopied(buf, k + 1, |l|, VALUE_SIZE);
    } else {
      if Trim(rest) == "" && rest != "" {
        assert rest[0] == l[k + 1] == '\n';
      }
      TrimmableCopied(buf, l, k + 1, |l|, "", VALUE_SIZE);
    }
  }

  /** The copies at a closing bracket or at the `=` stay in their buffers. */
  ghost predicate CanClose(buf: seq<char>, i: nat, v: Vars)
    requires i < |buf|
  {
    && (v.mode == Section && buf[i] == ']' ==> Copied(buf, v.saveLoc, i - 1, "", SECTION_SIZE).Some?)
    && (v.mode == Key && buf[i] == '=' ==> Copied(buf, 0, i - 1, "", KEY_SIZE).Some?)
  }

  /** The variables after character `i` > 0. */
  ghost function AfterChar(buf: seq<char>, i: nat, v: Vars): Vars
    requires i < |buf| && CanClose(buf, i, v)
  {
    if v.mode == Section then
      if buf[i] == ']' then
        v.(mode := StartLine, saveLoc := 0, section := Copied(buf, v.saveLoc, i - 1, "", SECTION_SIZE).value)
      else v
    else if v.mode == Key then
      if buf[i] == '=' then
        v.(mode := Value, saveLoc := i + 1, key := Copied(buf, 0, i - 1, "", KEY_SIZE).value)
      else v
    else if v.mode == Multiline then
      if IsSpace(buf[i]) then v.(saveLoc := i) else v.(mode := Value)
    else v
  }

  /** The variables after `i` characters, the start of the line included. */
  ghost predicate Midway(v0: Vars, l: string, i: nat, v: Vars)
    requires i <= |l|
  {
    if i == 0 then v == v0 else ReadOn(l) && Reading(v0, l, i, v)
  }

  lemma Untouched(v: Vars, l: string)
    ensures Midway(v, l, 0, v)
  {
  }

  lemma NextReads(buf: seq<char>, v0: Vars, l: string, i: nat, v: Vars)
    requires Loaded(buf, l) && 1 <= i < |l| && ReadOn(l) && Reading(v0, l, i, v)
    ensures i < |buf|
    ensures if CanClose(buf, i, v) then Reading(v0, l, i + 1, AfterChar(buf, i, v))
            else StepLine(StateOf(v0), l).OutOfBuffer?
  {
    LoadedAt(buf, l, i);
    hide Reading, StepLine, Loaded, StateOf, Trim, Copied, IndexFrom, ReadOn;
    if v.mode == Section && l[i] == ']' {
      HeaderEnds(buf, l, i, v0, v);
    } else if v.mode == Key && l[i] == '=' {
      KeyEnds(buf, l, i, v0, v);
    } else if v.mode == Multiline {
      IndentGoesOn(v0, l, i, v, AfterChar(buf, i, v));
    } else {
      ReadPast(v0, l, i, v);
    }
  }

  lemma LoadedAt(buf: seq<char>, l: string, i: nat)
    requires Loaded(buf, l) && i < |l|
    ensures i < |buf| && buf[i] == l[i]
  {
  }

  lemma IndentStarts(l: string)
    requires l != "" && IsSpace(l[0])
    ensures forall k :: 0 <= k < 1 && k < |l| ==> IsSpace(l[k])
  {
  }

  /** A character that changes nothing. */
  lemma ReadPast(v0: Vars, l: string, i: nat, v: Vars)
    requires 1 <= i < |l| && ReadOn(l) && Reading(v0, l, i, v) && v.mode != Multiline
    requires v.mode == Section ==> l[i] != ']'
    requires v.mode == Key ==> l[i] != '='
    ensures Reading(v0, l, i + 1, v)
  {
    hide Trim;
  }

  lemma IndentGoesOn(v0: Vars, l: string, i: nat, v: Vars, v': Vars)
    requires 1 <= i < |l| && ReadOn(l) && Reading(v0, l, i, v) && v.mode == Multiline
    requires v' == if IsSpace(l[i]) then v.(saveLoc := i) else v.(mode := Value)
    ensures Reading(v0, l, i + 1, v')
  {
    hide Trim, IndexFrom;
  }

  /** At the closing bracket: the copy of the name leaves a buffer exactly when the machine says so. */
  lemma HeaderEnds(buf: seq<char>, l: string, i: nat, v0: Vars, v: Vars)
    requires Loaded(buf, l) && 1 <= i < |l| && l[i] == ']'
    requires ReadOn(l) && Reading(v0, l, i, v) && v.mode == Section
    ensures var name := Copied(buf, v.saveLoc, i - 1, "", SECTION_SIZE);
            if name.None? then StepLine(StateOf(v0), l).OutOfBuffer?
            else Reading(v0, l, i + 1, v.(mode := StartLine, saveLoc := 0, section := name.value))
  {
    hide Trim, Copied, BlankOnly;
    assert l[0] == '[' && i == IndexFrom(l, ']', 1) && v.saveLoc == 1;
    assert Classify(l) == HeaderLine(l[1..i]);
    NameCopied(buf, l, i);
  }

  lemma NameCopied(buf: seq<char>, l: string, i: nat)
    requires Loaded(buf, l) && 1 <= i < |l| && l[0] == '[' && l[i] == ']'
    ensures Copied(buf, 1, i - 1, "", SECTION_SIZE)
         == if BlankOnly(l[1..i]) || |Trim(l[1..i])| >= SECTION_SIZE then None else Some(Trim(l[1..i]))
  {
    hide Trim, Copied;
    var name := l[1..i];
    JoinNothing(Trim(name));
    if Trim(name) == "" {
      AllTrimmed(name);
      assert forall j :: 1 <= j < i ==> buf[j] == l[j] == name[j - 1];
      if name != "" {
        assert IsSpace(name[0]);
        BlankCopied(buf, 1, i, SECTION_SIZE);
      } else {
        TrimmableCopied(buf, l, 1, i, "", SECTION_SIZE);
      }
    } else {
      TrimmableCopied(buf, l, 1, i, "", SECTION_SIZE);
    }
  }

  /** What trims away completely without starting blank is nothing, or starts with a newline. */
  lemma AllTrimmed(s: string)
    requires Trim(s) == ""
    ensures forall k :: 0 <= k < |s| ==> IsTrailing(s[k])
  {
    forall k | 0 <= k < |s| ensures IsTrailing(s[k]) {
      hide TrimLeft, TrimRight;
    }
  }

  lemma KeepsFirst(s: string)
    requires s != "" && !IsTrailing(s[0])
    ensures Trim(s) != ""
  {
    hide TrimLeft, TrimRight;
    assert TrimRight(s) != "";
  }

  lemma KeyEnds(buf: seq<char>, l: string, i: nat, v0: Vars, v: Vars)
    requires Loaded(buf, l) && 1 <= i < |l| && l[i] == '='
    requires ReadOn(l) && Reading(v0, l, i, v) && v.mode == Key
    ensures var name := Copied(buf, 0, i - 1, "", KEY_SIZE);
            if name.None? then StepLine(StateOf(v0), l).OutOfBuffer?
            else Reading(v0, l, i + 1, v.(mode := Value, saveLoc := i + 1, key := name.value))
  {
    hide Trim, Copied, BlankOnly;
    assert !IsSpace(l[0]) && l[0] != '[' && i == IndexFrom(l, '=', 1);
    assert Classify(l) == EntryLine(l[..i], l[i + 1..]);
    KeyCopied(buf, l, i);
  }

  // ----- when a line leaves a buffer -------------------------------------------------------------

  /** Where the copy of an indented line starts: at the last blank the loop has skipped. */
  function IndentLoc(l: string): nat {
    var k := |l| - |TrimLeft(l)|;
    if k < 2 then 1 else k - 1
  }

  /** Some copy `parse_line` makes for the line leaves its buffer, when the line is read with the
      variables `v0`: of the open value for a comment or an empty line, of the text for an indented
      one, of a section's name, of a key or of the rest behind it. */
  ghost predicate LineLeaves(buf: seq<char>, l: string, v0: Vars) {
    if l == "" || l[0] == '#' then
      v0.mode == Value && Copied(buf, v0.saveLoc, -1, Before(v0), VALUE_SIZE).None?
    else if l[0] == '\n' then false
    else if IsSpace(l[0]) then
      v0.mode == Value && TrimLeft(l) != "" && Copied(buf, IndentLoc(l), |l| - 1, Before(v0), VALUE_SIZE).None?
    else if l[0] == '[' then
      var k := IndexFrom(l, ']', 1);
      k < |l| && Copied(buf, 1, k - 1, "", SECTION_SIZE).None?
    else
      var k := IndexFrom(l, '=', 1);
      k < |l| && (Copied(buf, 0, k - 1, "", KEY_SIZE).None? || Copied(buf, k + 1, |l| - 1, "", VALUE_SIZE).None?)
  }

  /** The machine's `OutOfBuffer` is no mere label: it is the step exactly when an index of one of
      the line's copies leaves its buffer. */
  lemma OutOfBufferIff(buf: seq<char>, l: string, v0: Vars)
    requires Loaded(buf, l) && Consistent(v0)
    ensures StepLine(StateOf(v0), l).OutOfBuffer? <==> LineLeaves(buf, l, v0)
  {
    hide Trim, TrimLeft, Copied, IndexFrom, BlankOnly, IsLine, Loaded, IndentLoc;
    if l == "" || l[0] == '#' {
      NothingCopied(buf, v0);
    } else if IsSpace(l[0]) {
      IndentLeaves(buf, l, v0);
    } else if l[0] == '[' {
      var k := IndexFrom(l, ']', 1);
      if k < |l| {
        NameCopied(buf, l, k);
      }
    } else if l[0] != '\n' {
      var k := IndexFrom(l, '=', 1);
      if k < |l| {
        KeyCopied(buf, l, k);
        RestCopied(buf, l, k);
      }
    }
  }

  lemma NothingCopied(buf: seq<char>, v: Vars)
    ensures Copied(buf, v.saveLoc, -1, Before(v), VALUE_SIZE).None?
  {
    hide Copied;
    LineBlankCopied(buf, v.saveLoc, 0, Before(v), VALUE_SIZE);
  }

  lemma KeyCopied(buf: seq<char>, l: string, k: nat)
    requires Loaded(buf, l) && 1 <= k < |l| && !IsTrailing(l[0])
    ensures Copied(buf, 0, k - 1, "", KEY_SIZE)
         == if |Trim(l[..k])| >= KEY_SIZE then None else Some(Trim(l[..k]))
  {
    hide Trim, Copied, IsLine;
    LineEnd(buf, l);
    assert l[0..k] == l[..k];
    KeepsFirst(l[..k]);
    TrimmableCopied(buf, l, 0, k, "", KEY_SIZE);
    JoinNothing(Trim(l[..k]));
  }

  lemma IndentLeaves(buf: seq<char>, l: string, v0: Vars)
    requires Loaded(buf, l) && Consistent(v0) && l != "" && IsSpace(l[0])
    ensures StepLine(StateOf(v0), l).OutOfBuffer?
            <==> v0.mode == Value && TrimLeft(l) != ""
                 && Copied(buf, IndentLoc(l), |l| - 1, Before(v0), VALUE_SIZE).None?
  {
    hide *;
    if TrimLeft(l) != "" {
      IndentCopied(buf, l, Before(v0));
    }
    IndentStep(v0, l);
    CountedBefore(v0);
  }

  lemma CountedBefore(v: Vars)
    requires Consistent(v)
    ensures v.mode == Value ==> Before(v) == v.value
  {
  }

  lemma IndentStep(v: Vars, l: string)
    requires l != "" && IsSpace(l[0])
    requires Trim(l) == "" && TrimLeft(l) != "" ==> l[|l| - 1] == '\n'
    ensures StepLine(StateOf(v), l).OutOfBuffer?
            <==> v.mode == Value && TrimLeft(l) != "" && (Trim(l) == "" || |Join(v.value, Trim(l))| >= VALUE_SIZE)
  {
    hide Trim, TrimLeft, Classify, Join;
    IndentKind(l);
  }

  lemma IndentKind(l: string)
    requires l != "" && IsSpace(l[0])
    ensures Trim(l) != "" ==> Classify(l) == Continuation(Trim(l)) && TrimLeft(l) != ""
    ensures Trim(l) == "" && TrimLeft(l) != "" ==> Classify(l).BlankTail? || Classify(l).BlankLine?
    ensures Trim(l) == "" && l[|l| - 1] == '\n' ==> Classify(l) == BlankLine
    ensures TrimLeft(l) == "" ==> Classify(l) == BlankTail
  {
    hide Trim, TrimLeft, IndexFrom;
    IndentText(l);
  }

  lemma IndentText(l: string)
    ensures l != "" && TrimLeft(l) == "" ==> Trim(l) == "" && IsSpace(l[|l| - 1])
    ensures TrimLeft(l) != "" ==> !IsSpace(l[|l| - |TrimLeft(l)|])
  {
    if TrimLeft(l) == "" {
      AllBlank(l);
    }
  }

  lemma IndentCopied(buf: seq<char>, l: string, before: string)
    requires Loaded(buf, l) && l != "" && IsSpace(l[0]) && TrimLeft(l) != ""
    ensures Trim(l) == "" ==> l[|l| - 1] == '\n' && Copied(buf, IndentLoc(l), |l| - 1, before, VALUE_SIZE).None?
    ensures Trim(l) != "" ==>
              Copied(buf, IndentLoc(l), |l| - 1, before, VALUE_SIZE)
              == if |Join(before, Trim(l))| < VALUE_SIZE then Some(Join(before, Trim(l))) else None
  {
    hide Trim, TrimLeft, Copied, IndexFrom, Join;
    LineEnd(buf, l);
    IndentText(l);
    var from := IndentLoc(l);
    if Trim(l) == "" {
      AllTrimmed(l);
      LineBlankCopied(buf, from, |l|, before, VALUE_SIZE);
    } else {
      hide IsLine;
      TrimDrop(l, from);
      assert l[from..|l|] == l[from..];
      TrimmableCopied(buf, l, from, |l|, before, VALUE_SIZE);
    }
  }
}
