/** What a workspace says about a task, and the task record that holds it: one byte buffer the
    strings are packed into, with offsets into it for the fields. */
module TaskRecord {
  import opened CBytes
  import opened IniMachine
  import IniParser
  import IniGrammar

  /** What the scheduler needs to know about a task. */
  datatype TaskDef = TaskDef(cmd: string, dir: Option<string>, wait: Option<string>, vars: seq<string>)

  /** The handler calls a parse of the active workspace makes; None when the file cannot be
      opened or parsed. */
  type Workspace = Option<seq<Call>>

  function WorkspaceOf(file: Option<string>): Workspace {
    if file.None? || ParseText(file.value).status != Ok then None
    else Some(ParseCalls(ParseText(file.value)))
  }

  predicate Reserved(key: string) {
    key == "cmd" || key == "dir" || key == "wait"
  }

  /** The value of the last entry `key` of a section. */
  function LastValue(calls: seq<Call>, section: string, key: string): Option<string> {
    if calls == [] then None
    else
      var c := calls[|calls| - 1];
      if c.section == section && c.key == key then Some(c.value)
      else LastValue(calls[..|calls| - 1], section, key)
  }

  /** The section's other entries in file order, as environment strings. */
  function OtherEntries(calls: seq<Call>, section: string): seq<string> {
    if calls == [] then []
    else
      var c := calls[|calls| - 1];
      OtherEntries(calls[..|calls| - 1], section)
      + (if c.section == section && !Reserved(c.key) then [c.key + "=" + c.value] else [])
  }

  /** The task of a name; there is none without a command. */
  function Define(ws: Workspace, name: string): Option<TaskDef> {
    if ws.None? || LastValue(ws.value, name, "cmd").None? then None
    else Some(TaskDef(LastValue(ws.value, name, "cmd").value,
                      LastValue(ws.value, name, "dir"),
                      LastValue(ws.value, name, "wait"),
                      OtherEntries(ws.value, name)))
  }

  /** The task as submitted: the client's variables come last. */
  function Load(ws: Workspace, name: string, envs: seq<string>): Option<TaskDef> {
    var d := Define(ws, name);
    if d.None? then None else Some(d.value.(vars := d.value.vars + envs))
  }

  /** The value of the last entry of that section and key, told by position. */
  lemma {:induction false} LastValueIs(calls: seq<Call>, section: string, key: string)
    ensures LastValue(calls, section, key).None? <==>
              forall k :: 0 <= k < |calls| ==> !(calls[k].section == section && calls[k].key == key)
    ensures forall k :: 0 <= k < |calls| && calls[k].section == section && calls[k].key == key
                        && (forall j :: k < j < |calls| ==> !(calls[j].section == section && calls[j].key == key)) ==>
              LastValue(calls, section, key) == Some(calls[k].value)
  {
    if calls != [] {
      var n := |calls| - 1;
      LastValueIs(calls[..n], section, key);
      assert forall k :: 0 <= k < n ==> calls[..n][k] == calls[k];
      if calls[n].section == section && calls[n].key == key {
        forall k | 0 <= k < |calls| && calls[k].section == section && calls[k].key == key
                   && (forall j :: k < j < |calls| ==> !(calls[j].section == section && calls[j].key == key))
          ensures k == n
        {
        }
      }
    }
  }

  /** `ks` are the positions, in order, of the section's entries under other keys than the three with a
      meaning. */
  ghost predicate OthersAt(ks: seq<nat>, calls: seq<Call>, section: string) {
    && (forall i, j :: 0 <= i < j < |ks| ==> ks[i] < ks[j])
    && (forall v :: 0 <= v < |ks| ==> ks[v] < |calls|)
    && forall k :: 0 <= k < |calls| ==>
         (k in ks <==> calls[k].section == section
                       && calls[k].key != "cmd" && calls[k].key != "dir" && calls[k].key != "wait")
  }

  lemma OthersNext(ks: seq<nat>, calls: seq<Call>, section: string, next: Call)
    requires OthersAt(ks, calls, section)
    ensures var other := next.section == section && next.key != "cmd" && next.key != "dir" && next.key != "wait";
            OthersAt(if other then ks + [|calls|] else ks, calls + [next], section)
  {
    var all := calls + [next];
    forall k | 0 <= k < |calls| ensures all[k] == calls[k] && (k in ks + [|calls|] <==> k in ks) {
    }
    assert all[|calls|] == next && |calls| in ks + [|calls|];
    assert |calls| !in ks by {
      forall v | 0 <= v < |ks| ensures ks[v] != |calls| {
      }
    }
  }

  /** The variables are exactly those entries, each as name=value. */
  lemma {:induction false} OtherEntriesAre(calls: seq<Call>, section: string) returns (ks: seq<nat>)
    ensures OthersAt(ks, calls, section) && |OtherEntries(calls, section)| == |ks|
    ensures forall v :: 0 <= v < |ks| ==> OtherEntries(calls, section)[v] == calls[ks[v]].key + "=" + calls[ks[v]].value
  {
    hide OthersAt;
    if calls == [] {
      ks := [];
      NoOthers(section);
    } else {
      var n := |calls| - 1;
      var front := OtherEntriesAre(calls[..n], section);
      OthersNext(front, calls[..n], section, calls[n]);
      assert calls[..n] + [calls[n]] == calls;
      OthersInside(front, calls[..n], section);
      var c := calls[n];
      ks := if c.section == section && c.key != "cmd" && c.key != "dir" && c.key != "wait" then front + [n] else front;
      OthersInside(ks, calls, section);
    }
  }

  lemma NoOthers(section: string)
    ensures OthersAt([], [], section)
  {
  }

  lemma OthersInside(ks: seq<nat>, calls: seq<Call>, section: string)
    requires OthersAt(ks, calls, section)
    ensures forall v :: 0 <= v < |ks| ==> ks[v] < |calls|
  {
  }

  /** A file defines a task exactly when it can be read, parses, and has a `cmd` entry in the section of
      that name; the task is made of the last `cmd`, `dir` and `wait` entries, and of the other entries
      followed by the client's variables. */
  lemma LoadedIff(file: Option<string>, who: string, envs: seq<string>)
    ensures var calls := if file.None? then [] else ParseCalls(ParseText(file.value));
            var def := Load(WorkspaceOf(file), who, envs);
            && (def.Some? <==> file.Some? && ParseText(file.value).status == Ok
                               && exists k :: 0 <= k < |calls| && calls[k].section == who && calls[k].key == "cmd")
            && (def.Some? ==>
                  && Some(def.value.cmd) == LastValue(calls, who, "cmd") && def.value.dir == LastValue(calls, who, "dir")
                  && def.value.wait == LastValue(calls, who, "wait")
                  && def.value.vars == OtherEntries(calls, who) + envs)
  {
    hide ParseText, ParseCalls, LastValue, OtherEntries;
    LastValueIs(CallsOf(file), who, "cmd");
  }

  // ----- the packed strings --------------------------------------------------------------

  /** Strings one behind the other, each with its terminator. */
  function Flat(ps: seq<string>): string {
    if ps == [] then "" else Flat(ps[..|ps| - 1]) + ps[|ps| - 1] + [NUL]
  }

  function Offset(ps: seq<string>, k: nat): nat
    requires k <= |ps|
  {
    |Flat(ps[..k])|
  }

  function Piece(c: Call): string {
    if Reserved(c.key) then c.value else c.key + "=" + c.value
  }

  /** Everything written for task `name` while the calls come in: its name, then one string per
      entry of its section. */
  function Pieces(name: string, calls: seq<Call>): (ps: seq<string>)
    ensures |ps| >= 1
  {
    if calls == [] then [name]
    else
      var c := calls[|calls| - 1];
      Pieces(name, calls[..|calls| - 1]) + (if c.section == name then [Piece(c)] else [])
  }

  /** Which piece the field for `key` points at: the last such entry, or none. */
  function FieldPiece(name: string, calls: seq<Call>, key: string): (k: Option<nat>)
    ensures k.Some? ==> k.value < |Pieces(name, calls)|
  {
    if calls == [] then None
    else
      var c := calls[|calls| - 1];
      if c.section == name && c.key == key then Some(|Pieces(name, calls[..|calls| - 1])|)
      else FieldPiece(name, calls[..|calls| - 1], key)
  }

  /** Which pieces the variables point at. */
  function VarPieces(name: string, calls: seq<Call>): (ks: seq<nat>)
    ensures forall v :: 0 <= v < |ks| ==> ks[v] < |Pieces(name, calls)|
    ensures |ks| <= |calls|
  {
    if calls == [] then []
    else
      var c := calls[|calls| - 1];
      VarPieces(name, calls[..|calls| - 1])
      + (if c.section == name && !Reserved(c.key) then [|Pieces(name, calls[..|calls| - 1])|] else [])
  }

  /** The pieces hold what the fields are meant to read as. */
  lemma {:induction false} PiecesMean(name: string, calls: seq<Call>)
    ensures Pieces(name, calls)[0] == name
    ensures forall key :: Reserved(key) ==>
              LastValue(calls, name, key) ==
                if FieldPiece(name, calls, key).None? then None
                else Some(Pieces(name, calls)[FieldPiece(name, calls, key).value])
    ensures |VarPieces(name, calls)| == |OtherEntries(calls, name)|
    ensures forall v :: 0 <= v < |VarPieces(name, calls)| ==>
              Pieces(name, calls)[VarPieces(name, calls)[v]] == OtherEntries(calls, name)[v]
  {
    if calls != [] {
      PiecesMean(name, calls[..|calls| - 1]);
    }
  }

  lemma FlatAppend(ps: seq<string>, s: string)
    ensures Flat(ps + [s]) == Flat(ps) + s + [NUL]
    ensures forall k: nat :: k <= |ps| ==> Offset(ps + [s], k) == Offset(ps, k)
    ensures Offset(ps + [s], |ps|) == |Flat(ps)|
  {
    assert (ps + [s])[..|ps|] == ps;
    forall k: nat | k <= |ps| ensures Offset(ps + [s], k) == Offset(ps, k) {
      assert (ps + [s])[..k] == ps[..k];
    }
    assert ps[..|ps|] == ps;
  }

  lemma {:induction false} FlatSplit(ps: seq<string>, k: nat)
    requires k < |ps|
    ensures Offset(ps, k) + |ps[k]| + 1 <= |Flat(ps)|
    ensures At(Flat(ps), Offset(ps, k), ps[k] + [NUL])
  {
    var n := |ps| - 1;
    var front := ps[..n];
    assert ps == front + [ps[n]];
    FlatAppend(front, ps[n]);
    if k < n {
      FlatSplit(front, k);
      assert front[..k] == ps[..k];
    } else {
      assert front[..n] == ps[..n];
    }
  }

  /** Different pieces lie in different places: one string ends before the next begins. */
  lemma {:induction false} PiecesApart(ps: seq<string>, j: nat, k: nat)
    requires j < k <= |ps|
    ensures Offset(ps, j) + |ps[j]| + 1 <= Offset(ps, k)
  {
    assert ps[..k][..j] == ps[..j];
    FlatSplit(ps[..k], j);
  }

  /** Every piece without a NUL in it reads back through its offset. */
  lemma PieceReads(buf: seq<char>, ps: seq<string>, k: nat)
    requires k < |ps| && NUL !in ps[k] && At(buf, 0, Flat(ps))
    ensures Offset(ps, k) < |buf| && StringAt(buf, Offset(ps, k)) == ps[k]
  {
    FlatSplit(ps, k);
    hide Flat, StringAt;
    AtInside(buf, Flat(ps), Offset(ps, k), ps[k] + [NUL]);
    StringThere(buf, Offset(ps, k), ps[k]);
  }

  lemma AtInside(buf: seq<char>, a: seq<char>, at: nat, w: seq<char>)
    requires At(buf, 0, a) && At(a, at, w)
    ensures At(buf, at, w)
  {
    forall k | 0 <= k < |w| ensures buf[at + k] == w[k] {
      assert buf[0 + (at + k)] == a[at + k];
    }
  }

  lemma StringThere(buf: seq<char>, at: nat, s: string)
    requires At(buf, at, s + [NUL]) && NUL !in s
    ensures at < |buf| && StringAt(buf, at) == s
  {
    var w := s + [NUL];
    assert buf[at + |s|] == w[|s|];
    forall j | at <= j < at + |s| ensures buf[j] == s[j - at] {
      assert buf[at + (j - at)] == w[j - at];
    }
    IndexFromUnique(buf, NUL, at, at + |s|);
    assert buf[at..at + |s|] == s;
  }

  // ----- the handler's strings have no NUL in them -------------------------------------------

  ghost predicate Textual(c: Call) {
    NUL !in c.section && NUL !in c.key && NUL !in c.value
  }

  ghost predicate TextualKind(k: LineKind) {
    && (k.HeaderLine? ==> NUL !in k.name)
    && (k.EntryLine? ==> NUL !in k.key && NUL !in k.rest)
    && (k.Continuation? ==> NUL !in k.text)
  }

  lemma TrimTextual(s: string)
    requires NUL !in s
    ensures NUL !in Trim(s)
  {
    hide TrimLeft, TrimRight;
    var t := TrimRight(s);
    SliceTextual(s, 0, |t|);
    assert t == s[0..|t|];
    SliceTextual(t, |t| - |TrimLeft(t)|, |t|);
    assert TrimLeft(t) == t[|t| - |TrimLeft(t)|..|t|];
  }

  lemma ClassifyTextual(l: string)
    requires NUL !in l
    ensures TextualKind(Classify(l))
  {
    hide Trim, IndexFrom;
    if l != "" && !IsSpace(l[0]) {
      if l[0] == '[' {
        SliceTextual(l, 1, IndexFrom(l, ']', 1));
      } else {
        var k := IndexFrom(l, '=', 1);
        SliceTextual(l, 0, k);
        SliceTextual(l, if k < |l| then k + 1 else k, |l|);
        assert l[0..k] == l[..k];
      }
    } else {
      TrimTextual(l);
    }
  }

  lemma SliceTextual(s: string, i: nat, j: nat)
    requires NUL !in s && i <= j <= |s|
    ensures NUL !in s[i..j]
  {
  }

  lemma {:induction false} SplitTextual(text: string)
    ensures forall k :: 0 <= k < |Kinds(SplitLines(text))| ==> TextualKind(Kinds(SplitLines(text))[k])
    decreases |text|
  {
    if text != "" {
      IniGrammar.SplitStep(text);
      var n := ChunkEnd(text);
      hide ChunkEnd, Classify, TextualKind, SplitLines, StringAt;
      StringTextual(text[..n]);
      ClassifyTextual(StringAt(text[..n], 0));
      SplitTextual(text[n..]);
      var rest := SplitLines(text[n..]);
      assert ([StringAt(text[..n], 0)] + rest)[1..] == rest;
    }
  }

  /** What is read up to a NUL has none. */
  lemma StringTextual(chunk: string)
    ensures NUL !in StringAt(chunk, 0)
  {
    var l := StringAt(chunk, 0);
    assert forall k :: 0 <= k < |l| ==> l[k] == chunk[k];
  }

  lemma {:induction false} ReadTextual(st: State, ks: seq<LineKind>)
    requires NUL !in st.section && (st.open.Some? ==> NUL !in st.open.value.key && NUL !in st.open.value.value)
    requires forall k :: 0 <= k < |ks| ==> TextualKind(ks[k])
    ensures forall k :: 0 <= k < |ParseCalls(Read(st, ks))| ==> Textual(ParseCalls(Read(st, ks))[k])
    decreases |ks|
  {
    if ks != [] {
      assert TextualKind(ks[0]);
      var step := StepKind(st, ks[0]);
      if step.Next? {
        StepTextual(st, ks[0]);
        ReadTextual(step.st, ks[1..]);
        IniGrammar.PrecededTwice(step.calls, [], Read(step.st, ks[1..]));
        var o := Read(step.st, ks[1..]);
        hide StepKind, Read, TextualKind, Textual;
        assert forall k :: 0 <= k < |o.calls| ==> o.calls[k] == ParseCalls(o)[k];
      }
    }
  }

  lemma StepTextual(st: State, k: LineKind)
    requires NUL !in st.section && (st.open.Some? ==> NUL !in st.open.value.key && NUL !in st.open.value.value)
    requires TextualKind(k) && StepKind(st, k).Next?
    ensures var next := StepKind(st, k).st;
            NUL !in next.section && (next.open.Some? ==> NUL !in next.open.value.key && NUL !in next.open.value.value)
    ensures forall i :: 0 <= i < |StepKind(st, k).calls| ==> Textual(StepKind(st, k).calls[i])
  {
    hide Trim, BlankOnly;
    if k.HeaderLine? {
      TrimTextual(k.name);
    } else if k.EntryLine? {
      TrimTextual(k.key);
      TrimTextual(k.rest);
    }
  }

  lemma ParseTextual(text: string)
    ensures forall k :: 0 <= k < |ParseCalls(ParseText(text))| ==> Textual(ParseCalls(ParseText(text))[k])
  {
    SplitTextual(text);
    ReadTextual(START, Kinds(SplitLines(text)));
  }

  lemma {:induction false} PiecesTextual(who: string, calls: seq<Call>)
    requires NUL !in who && forall k :: 0 <= k < |calls| ==> Textual(calls[k])
    ensures forall i :: 0 <= i < |Pieces(who, calls)| ==> NUL !in Pieces(who, calls)[i]
  {
    if calls != [] {
      PiecesTextual(who, calls[..|calls| - 1]);
      assert Textual(calls[|calls| - 1]);
    }
  }

  // ----- room in the buffers ------------------------------------------------------------------

  /** The handler calls made while reading the file, well or badly formed. */
  function CallsOf(file: Option<string>): seq<Call> {
    if file.None? then [] else ParseCalls(ParseText(file.value))
  }

  lemma {:induction false} FlatGrows(ps: seq<string>, more: seq<string>)
    ensures |Flat(ps)| <= |Flat(ps + more)|
    decreases |more|
  {
    if more == [] {
      assert ps + more == ps;
    } else {
      var n := |more| - 1;
      assert ps + more == (ps + more[..n]) + [more[n]];
      FlatAppend(ps + more[..n], more[n]);
      FlatGrows(ps, more[..n]);
    }
  }

  lemma {:induction false} PiecesGrow(who: string, calls: seq<Call>, i: nat)
    requires i <= |calls|
    ensures |Flat(Pieces(who, calls[..i]))| <= |Flat(Pieces(who, calls))|
    ensures |VarPieces(who, calls[..i])| <= |VarPieces(who, calls)|
    decreases |calls|
  {
    if i < |calls| {
      var n := |calls| - 1;
      assert calls[..n][..i] == calls[..i];
      PiecesGrow(who, calls[..n], i);
      FlatGrows(Pieces(who, calls[..n]), if calls[n].section == who then [Piece(calls[n])] else []);
    } else {
      assert calls[..i] == calls;
    }
  }

  // ----- the record as a value ------------------------------------------------------------------

  const NULL := -1

  /** The written part of the buffer, and the pointers into it as offsets. */
  datatype Fields = Fields(text: string, name: int, cmd: int, dir: int, wait: int, varCount: nat, vars: seq<int>)

  ghost predicate PointsAt(ps: seq<string>, p: int, k: Option<nat>) {
    if k.None? then p == NULL else k.value < |ps| && p == Offset(ps, k.value)
  }

  /** The record after `calls` of the parse and `envs` of the client's variables: which strings
      are packed, and where the fields point. */
  ghost predicate Holds(f: Fields, who: string, calls: seq<Call>, envs: seq<string>) {
    var ps := Pieces(who, calls) + envs;
    && f.text == Flat(ps) && f.name == 0
    && PointsAt(ps, f.cmd, FieldPiece(who, calls, "cmd"))
    && PointsAt(ps, f.dir, FieldPiece(who, calls, "dir"))
    && PointsAt(ps, f.wait, FieldPiece(who, calls, "wait"))
    && VarsPoint(f, ps, VarPieces(who, calls), |Pieces(who, calls)|, |envs|)
  }

  /** The variables point at the pieces `ks`, then at `n` pieces from `first` on; NULLs follow. */
  ghost predicate VarsPoint(f: Fields, ps: seq<string>, ks: seq<nat>, first: nat, n: nat) {
    && f.varCount == |ks| && |ks| + n <= |f.vars| && first + n <= |ps|
    && (forall v :: 0 <= v < |ks| ==> ks[v] < |ps| && f.vars[v] == Offset(ps, ks[v]))
    && (forall v :: |ks| <= v < |ks| + n ==> f.vars[v] == Offset(ps, first + (v - |ks|)))
    && (forall v :: |ks| + n <= v < |f.vars| ==> f.vars[v] == NULL)
  }

  /** The record after one matching call of the entry handler. */
  function WithCall(f: Fields, c: Call): Fields
    requires !Reserved(c.key) ==> f.varCount < |f.vars|
  {
    var at := |f.text|;
    var g := f.(text := f.text + Piece(c) + [NUL]);
    if c.key == "cmd" then g.(cmd := at)
    else if c.key == "dir" then g.(dir := at)
    else if c.key == "wait" then g.(wait := at)
    else g.(vars := f.vars[f.varCount := at], varCount := f.varCount + 1)
  }

  /** What one more call adds to the pieces and to the pieces pointed at. */
  lemma CallAppended(who: string, calls: seq<Call>, c: Call)
    ensures var ps, all := Pieces(who, calls), calls + [c];
            if c.section == who then
              && Pieces(who, all) == ps + [Piece(c)]
              && VarPieces(who, all)
                 == (if Reserved(c.key) then VarPieces(who, calls) else VarPieces(who, calls) + [|ps|])
              && forall key :: FieldPiece(who, all, key)
                               == if key == c.key then Some(|ps|) else FieldPiece(who, calls, key)
            else
              && Pieces(who, all) == ps && VarPieces(who, all) == VarPieces(who, calls)
              && forall key :: FieldPiece(who, all, key) == FieldPiece(who, calls, key)
  {
    assert (calls + [c])[..|calls|] == calls;
    assert Pieces(who, calls) + [] == Pieces(who, calls);
    assert VarPieces(who, calls) + [] == VarPieces(who, calls);
  }

  lemma CallHolds(f: Fields, who: string, calls: seq<Call>, c: Call)
    requires Holds(f, who, calls, [])
    requires |VarPieces(who, calls + [c])| <= |f.vars|
    ensures c.section == who && !Reserved(c.key) ==> f.varCount < |f.vars|
    ensures Holds(if c.section == who then WithCall(f, c) else f, who, calls + [c], [])
  {
    hide Flat, Pieces, VarPieces, FieldPiece, Offset, PointsAt, Piece;
    var ps := Pieces(who, calls);
    CallAppended(who, calls, c);
    NothingBehind(ps);
    NothingBehind(Pieces(who, calls + [c]));
    if c.section == who {
      FlatAppend(ps, Piece(c));
      NewPoints(ps, Piece(c));
      KeepsPointing(ps, Piece(c), f.cmd, FieldPiece(who, calls, "cmd"));
      KeepsPointing(ps, Piece(c), f.dir, FieldPiece(who, calls, "dir"));
      KeepsPointing(ps, Piece(c), f.wait, FieldPiece(who, calls, "wait"));
      VarsKeep(f, WithCall(f, c), ps, Piece(c), VarPieces(who, calls), Reserved(c.key));
      hide VarsPoint;
    }
  }

  lemma KeyAndValue(text: string, c: Call)
    requires !Reserved(c.key)
    ensures text + c.key + ['='] + c.value + [NUL] == text + Piece(c) + [NUL]
    ensures |Piece(c)| == |c.key| + 1 + |c.value|
  {
    assert text + c.key + ['='] + c.value == text + (c.key + "=" + c.value);
  }

  lemma NothingBehind(ps: seq<string>)
    ensures ps + [] == ps
  {
  }

  /** A field set where the next piece starts points at that piece. */
  lemma NewPoints(ps: seq<string>, s: string)
    ensures PointsAt(ps + [s], |Flat(ps)|, Some(|ps|))
  {
    hide Flat;
    FlatAppend(ps, s);
  }

  lemma KeepsPointing(ps: seq<string>, s: string, p: int, k: Option<nat>)
    requires PointsAt(ps, p, k)
    ensures PointsAt(ps + [s], p, k)
  {
    FlatAppend(ps, s);
    hide Flat;
  }

  lemma VarsKeep(f: Fields, g: Fields, ps: seq<string>, s: string, ks: seq<nat>, reserved: bool)
    requires VarsPoint(f, ps, ks, |ps|, 0) && |f.text| == |Flat(ps)|
    requires if reserved then g.vars == f.vars && g.varCount == f.varCount
             else f.varCount < |f.vars| && g.vars == f.vars[f.varCount := |f.text|] && g.varCount == f.varCount + 1
    ensures VarsPoint(g, ps + [s], if reserved then ks else ks + [|ps|], |ps + [s]|, 0)
  {
    FlatAppend(ps, s);
    hide Flat, Offset;
  }

  lemma EnvHolds(f: Fields, who: string, calls: seq<Call>, envs: seq<string>, env: string)
    requires Holds(f, who, calls, envs) && f.varCount + |envs| < |f.vars|
    ensures Holds(f.(text := f.text + env + [NUL], vars := f.vars[|envs| + f.varCount := |f.text|]),
                  who, calls, envs + [env])
  {
    hide Flat, Pieces, VarPieces, FieldPiece, Offset, PointsAt;
    var ps := Pieces(who, calls) + envs;
    EnvBehind(Pieces(who, calls), envs, env);
    FlatAppend(ps, env);
    KeepsPointing(ps, env, f.cmd, FieldPiece(who, calls, "cmd"));
    KeepsPointing(ps, env, f.dir, FieldPiece(who, calls, "dir"));
    KeepsPointing(ps, env, f.wait, FieldPiece(who, calls, "wait"));
    EnvPoints(f, ps, VarPieces(who, calls), |Pieces(who, calls)|, |envs|, env);
    hide VarsPoint;
  }

  lemma EnvBehind(ps: seq<string>, envs: seq<string>, env: string)
    ensures ps + (envs + [env]) == (ps + envs) + [env]
  {
  }

  lemma EnvPoints(f: Fields, ps: seq<string>, ks: seq<nat>, first: nat, n: nat, env: string)
    requires VarsPoint(f, ps, ks, first, n) && |ps| == first + n && f.varCount + n < |f.vars|
    requires |f.text| == |Flat(ps)|
    ensures VarsPoint(f.(text := f.text + env + [NUL], vars := f.vars[n + f.varCount := |f.text|]),
                      ps + [env], ks, first, n + 1)
  {
    hide Flat, Offset;
    FlatAppend(ps, env);
  }

  // ----- what a reader sees -----------------------------------------------------------------------

  /** The string behind a pointer into the buffer; None for NULL. */
  function ReadAt(buf: seq<char>, p: int): Option<string> {
    if 0 <= p <= |buf| then Some(StringAt(buf, p)) else None
  }

  ghost predicate ReadsAs(buf: seq<char>, f: Fields, who: string, def: TaskDef) {
    && ReadAt(buf, f.name) == Some(who) && ReadAt(buf, f.cmd) == Some(def.cmd)
    && ReadAt(buf, f.dir) == def.dir && ReadAt(buf, f.wait) == def.wait
    && |def.vars| < |f.vars| && f.vars[|def.vars|] == NULL
    && forall v :: 0 <= v < |def.vars| ==> ReadAt(buf, f.vars[v]) == Some(def.vars[v])
  }

  lemma FieldReads(buf: seq<char>, ps: seq<string>, p: int, k: Option<nat>)
    requires At(buf, 0, Flat(ps)) && PointsAt(ps, p, k)
    requires forall i :: 0 <= i < |ps| ==> NUL !in ps[i]
    ensures ReadAt(buf, p) == if k.None? then None else Some(ps[k.value])
  {
    if k.Some? {
      PieceReads(buf, ps, k.value);
    }
  }

  lemma NameReads(buf: seq<char>, f: Fields, who: string, calls: seq<Call>, envs: seq<string>)
    requires Holds(f, who, calls, envs) && At(buf, 0, f.text) && NUL !in who
    ensures |buf| > 0 && StringAt(buf, 0) == who
  {
    var ps := Pieces(who, calls) + envs;
    PiecesMean(who, calls);
    assert ps[0] == who && ps[..0] == [];
    PieceReads(buf, ps, 0);
  }

  /** A finished record reads as the task it was made for. */
  lemma RecordReads(buf: seq<char>, f: Fields, who: string, calls: seq<Call>, envs: seq<string>, def: TaskDef)
    requires Holds(f, who, calls, envs) && At(buf, 0, f.text) && f.varCount + |envs| < |f.vars|
    requires forall i :: 0 <= i < |Pieces(who, calls) + envs| ==> NUL !in (Pieces(who, calls) + envs)[i]
    requires Load(Some(calls), who, envs) == Some(def)
    ensures ReadsAs(buf, f, who, def)
  {
    assert NUL !in who by {
      PiecesMean(who, calls);
      assert (Pieces(who, calls) + envs)[0] == who;
    }
    NameReads(buf, f, who, calls, envs);
    FieldMeans(buf, who, calls, envs, "cmd", f.cmd);
    FieldMeans(buf, who, calls, envs, "dir", f.dir);
    FieldMeans(buf, who, calls, envs, "wait", f.wait);
    VarsMean(buf, f, who, calls, envs);
    assert |def.vars| == f.varCount + |envs| by {
      PiecesMean(who, calls);
    }
    assert ReadAt(buf, f.name) == Some(who);
    hide Holds, Flat, Pieces, VarPieces, FieldPiece, LastValue, OtherEntries, ReadAt;
  }

  lemma FieldMeans(buf: seq<char>, who: string, calls: seq<Call>, envs: seq<string>, key: string, p: int)
    requires At(buf, 0, Flat(Pieces(who, calls) + envs)) && Reserved(key)
    requires PointsAt(Pieces(who, calls) + envs, p, FieldPiece(who, calls, key))
    requires forall i :: 0 <= i < |Pieces(who, calls) + envs| ==> NUL !in (Pieces(who, calls) + envs)[i]
    ensures ReadAt(buf, p) == LastValue(calls, who, key)
  {
    PiecesMean(who, calls);
    hide Flat, Pieces, FieldPiece, LastValue, ReadAt, PointsAt;
    FieldReads(buf, Pieces(who, calls) + envs, p, FieldPiece(who, calls, key));
  }

  lemma VarsMean(buf: seq<char>, f: Fields, who: string, calls: seq<Call>, envs: seq<string>)
    requires Holds(f, who, calls, envs) && At(buf, 0, f.text) && f.varCount + |envs| < |f.vars|
    requires forall i :: 0 <= i < |Pieces(who, calls) + envs| ==> NUL !in (Pieces(who, calls) + envs)[i]
    ensures var vs := OtherEntries(calls, who) + envs;
            && |vs| == f.varCount + |envs| && f.vars[|vs|] == NULL
            && forall v :: 0 <= v < |vs| ==> ReadAt(buf, f.vars[v]) == Some(vs[v])
  {
    var ps, ks := Pieces(who, calls), VarPieces(who, calls);
    PiecesMean(who, calls);
    hide Flat, Pieces, VarPieces, FieldPiece, LastValue, OtherEntries, ReadAt, Offset;
    VarsRead(buf, f, ps + envs, ks, |ps|, |envs|);
    var vs := OtherEntries(calls, who) + envs;
    forall v | 0 <= v < |vs| ensures ReadAt(buf, f.vars[v]) == Some(vs[v]) {
      if v < |ks| {
        assert vs[v] == ps[ks[v]] == (ps + envs)[ks[v]];
      } else {
        assert vs[v] == envs[v - |ks|] == (ps + envs)[|ps| + (v - |ks|)];
      }
    }
  }

  lemma VarsRead(buf: seq<char>, f: Fields, ps: seq<string>, ks: seq<nat>, first: nat, n: nat)
    requires At(buf, 0, Flat(ps)) && VarsPoint(f, ps, ks, first, n)
    requires forall i :: 0 <= i < |ps| ==> NUL !in ps[i]
    ensures forall v :: 0 <= v < |ks| ==> ReadAt(buf, f.vars[v]) == Some(ps[ks[v]])
    ensures forall v :: |ks| <= v < |ks| + n ==> ReadAt(buf, f.vars[v]) == Some(ps[first + (v - |ks|)])
  {
    hide Flat, ReadAt, Offset, At;
    forall v | 0 <= v < |ks| ensures ReadAt(buf, f.vars[v]) == Some(ps[ks[v]]) {
      VarRead(buf, f, ps, ks, first, n, v);
    }
    forall v | |ks| <= v < |ks| + n ensures ReadAt(buf, f.vars[v]) == Some(ps[first + (v - |ks|)]) {
      VarRead(buf, f, ps, ks, first, n, v);
    }
  }

  lemma VarRead(buf: seq<char>, f: Fields, ps: seq<string>, ks: seq<nat>, first: nat, n: nat, v: nat)
    requires At(buf, 0, Flat(ps)) && VarsPoint(f, ps, ks, first, n) && v < |ks| + n
    requires forall i :: 0 <= i < |ps| ==> NUL !in ps[i]
    ensures v < |f.vars| && first + n <= |ps|
    ensures v < |ks| ==> ks[v] < |ps| && ReadAt(buf, f.vars[v]) == Some(ps[ks[v]])
    ensures v >= |ks| ==> ReadAt(buf, f.vars[v]) == Some(ps[first + (v - |ks|)])
  {
    hide Flat, ReadAt, Offset, At;
    FieldReads(buf, ps, f.vars[v], Some(if v < |ks| then ks[v] else first + (v - |ks|)));
  }

  /** The strings and the pointers to the variables fit their arrays. */
  ghost predicate Fits(bufSize: nat, varMax: nat, who: string, calls: seq<Call>, envs: seq<string>) {
    && |Flat(Pieces(who, calls) + envs)| <= bufSize
    && |VarPieces(who, calls)| + |envs| <= varMax
  }

  /** What fits as a whole fits in part. */
  lemma FitsInPart(bufSize: nat, varMax: nat, who: string, calls: seq<Call>, envs: seq<string>, i: nat, e: nat)
    requires i <= |calls| && e <= |envs|
    ensures Fits(bufSize, varMax, who, calls, []) ==> Fits(bufSize, varMax, who, calls[..i], [])
    ensures Fits(bufSize, varMax, who, calls, envs) ==> Fits(bufSize, varMax, who, calls, envs[..e])
  {
    hide Flat, Pieces, VarPieces;
    PiecesGrow(who, calls, i);
    NothingBehind(Pieces(who, calls));
    NothingBehind(Pieces(who, calls[..i]));
    assert Pieces(who, calls) + envs == (Pieces(who, calls) + envs[..e]) + envs[e..];
    FlatGrows(Pieces(who, calls) + envs[..e], envs[e..]);
  }

  lemma NameFits(bufSize: nat, varMax: nat, who: string, calls: seq<Call>)
    ensures Fits(bufSize, varMax, who, [], []) <==> |who| + 1 <= bufSize
    ensures Fits(bufSize, varMax, who, calls, []) ==> |who| + 1 <= bufSize
  {
    FitsInPart(bufSize, varMax, who, calls, [], 0, 0);
    assert calls[..0] == [];
    FlatOfName(who);
    assert [who] + [] == [who];
  }

  /** A record that holds something has had room for it. */
  lemma HeldFits(f: Fields, bufSize: nat, who: string, calls: seq<Call>, envs: seq<string>)
    requires Holds(f, who, calls, envs) && |f.text| <= bufSize
    ensures Fits(bufSize, |f.vars|, who, calls, envs)
  {
    hide Flat, Pieces, VarPieces, PointsAt;
  }

  /** `get_task` stays inside the record: the parse inside its buffers, and what is written inside
      the text buffer and the array of variables. The client's variables are only written when the
      task is defined. */
  ghost predicate FillStays(bufSize: nat, varMax: nat, who: string, file: Option<string>, envs: seq<string>) {
    && (file.Some? ==> ParseText(file.value).status != Fault)
    && Fits(bufSize, varMax, who, CallsOf(file), [])
    && (Load(WorkspaceOf(file), who, envs).Some? ==> Fits(bufSize, varMax, who, CallsOf(file), envs))
  }

  lemma FlatOfName(who: string)
    ensures Flat([who]) == who + [NUL]
  {
    assert [] + [who] == [who];
    FlatAppend([], who);
    assert "" + who == who;
  }

  lemma StartsHolding(f: Fields, who: string)
    requires f.text == who + [NUL] && f.varCount == 0 && f.name == 0 && f.cmd == f.dir == f.wait == NULL
    requires forall v :: 0 <= v < |f.vars| ==> f.vars[v] == NULL
    ensures Holds(f, who, [], [])
  {
    FlatOfName(who);
    assert [who] + [] == [who];
  }

  lemma CmdMeansDefined(f: Fields, file: Option<string>, who: string, envs: seq<string>)
    requires file.Some? && ParseText(file.value).status == Ok && Holds(f, who, CallsOf(file), [])
    ensures Load(WorkspaceOf(file), who, envs).None? <==> f.cmd == NULL
  {
    PiecesMean(who, CallsOf(file));
    assert Reserved("cmd");
    hide ParseText, Flat, Pieces, VarPieces, LastValue, OtherEntries;
  }

  lemma FilledReads(buf: seq<char>, f: Fields, file: Option<string>, who: string, envs: seq<string>)
    requires file.Some? && ParseText(file.value).status == Ok
    requires NUL !in who && (forall e :: 0 <= e < |envs| ==> NUL !in envs[e])
    requires Holds(f, who, CallsOf(file), envs) && At(buf, 0, f.text) && f.varCount + |envs| < |f.vars|
    requires Load(WorkspaceOf(file), who, envs).Some?
    ensures ReadsAs(buf, f, who, Load(WorkspaceOf(file), who, envs).value)
  {
    ParseTextual(file.value);
    hide ParseText, Flat, Pieces, VarPieces, LastValue, OtherEntries, ParseCalls, ReadsAs, Holds;
    PiecesTextual(who, CallsOf(file));
    RecordReads(buf, f, who, CallsOf(file), envs, Load(WorkspaceOf(file), who, envs).value);
  }

  // ----- the record --------------------------------------------------------------------------------

  class Task {
    const buf: array<char>
    const vars: array<int>
    var bufLoc: nat
    var varCount: nat
    var name: int
    var cmd: int
    var dir: int
    var wait: int

    ghost predicate Valid()
      reads this
    {
      bufLoc <= buf.Length
    }

    ghost function View(): Fields
      reads this, buf, vars
      requires Valid()
    {
      Fields(buf[..bufLoc], name, cmd, dir, wait, varCount, vars[..])
    }

    /** A zeroed store slot. */
    constructor (bufSize: nat, varMax: nat)
      ensures Valid() && fresh(buf) && fresh(vars) && buf.Length == bufSize && vars.Length == varMax
      ensures View() == Fields("", NULL, NULL, NULL, NULL, 0, seq(varMax, _ => NULL))
    {
      buf := new char[bufSize](_ => NUL);
      vars := new int[varMax](_ => NULL);
      bufLoc, varCount := 0, 0;
      name, cmd, dir, wait := NULL, NULL, NULL, NULL;
    }

    /** Appends a string and its end character, and says where it starts. Not inside when it would
        run off the buffer. */
    method Write(value: string, endChar: char) returns (inside: bool, ptr: nat)
      requires Valid()
      modifies buf, this`bufLoc
      ensures Valid() && ptr == old(bufLoc)
      ensures inside <==> old(bufLoc) + |value| + 1 <= buf.Length
      ensures View() == if inside then old(View()).(text := old(View()).text + value + [endChar]) else old(View())
    {
      ptr := bufLoc;
      if ptr + |value| + 1 > buf.Length {
        return false, ptr;
      }
      forall k | 0 <= k < |value| {
        buf[ptr + k] := value[k];
      }
      buf[ptr + |value|] := endChar;
      bufLoc := bufLoc + |value| + 1;
      assert buf[..bufLoc] == old(buf[..bufLoc]) + value + [endChar];
      inside := true;
    }

    /** `workspace_task_get`: the entry handler of the parse. */
    method Entry(c: Call, ghost who: string) returns (inside: bool)
      requires Valid() && 0 <= name <= buf.Length && StringAt(buf[..], name) == who
      modifies this`cmd, this`dir, this`wait, this`varCount, this`bufLoc, buf, vars
      ensures Valid()
      ensures inside <==> CallFits(old(View()), buf.Length, who, c)
      ensures inside ==> View() == if c.section == who then WithCall(old(View()), c) else old(View())
    {
      hide StringAt;
      inside := true;
      if c.section == ReadName() {
        if Reserved(c.key) {
          if c.key == "cmd" {
            cmd := bufLoc;
          } else if c.key == "dir" {
            dir := bufLoc;
          } else {
            wait := bufLoc;
          }
          var ptr;
          inside, ptr := Write(c.value, NUL);
        } else {
          inside := Variable(c);
        }
      }
    }

    function ReadName(): string
      reads this, buf
      requires 0 <= name <= buf.Length
    {
      StringAt(buf[..], name)
    }

    /** An entry that is a variable: name, `=` and value become one string. */
    method Variable(c: Call) returns (inside: bool)
      requires Valid() && !Reserved(c.key)
      modifies this`varCount, this`bufLoc, buf, vars
      ensures Valid()
      ensures inside <==> old(bufLoc) + |Piece(c)| + 1 <= buf.Length && old(varCount) < vars.Length
      ensures inside ==> View() == WithCall(old(View()), c)
    {
      ghost var was := View();
      var at, ptr;
      inside, at := Write(c.key, '=');
      if !inside || varCount >= vars.Length {
        return false;
      }
      vars[varCount] := at;
      varCount := varCount + 1;
      inside, ptr := Write(c.value, NUL);
      KeyAndValue(was.text, c);
    }

    /** Runs the entry handler on every call of the parse. */
    method ReadCalls(who: string, calls: seq<Call>) returns (inside: bool)
      requires Valid() && Holds(View(), who, [], []) && NUL !in who
      modifies this, buf, vars
      ensures Valid()
      ensures inside <==> Fits(buf.Length, vars.Length, who, calls, [])
      ensures inside ==> Holds(View(), who, calls, [])
    {
      hide Holds, Flat, Pieces, VarPieces, StringAt, WithCall, Fits;
      assert calls[..0] == [];
      for i := 0 to |calls|
        invariant Valid() && Holds(View(), who, calls[..i], [])
      {
        inside := OneCall(calls[i], who, calls[..i]);
        assert calls[..i + 1] == calls[..i] + [calls[i]];
        if !inside {
          FitsInPart(buf.Length, vars.Length, who, calls, [], i + 1, 0);
          return;
        }
      }
      assert calls[..|calls|] == calls;
      HeldFits(View(), buf.Length, who, calls, []);
      inside := true;
    }

    method OneCall(c: Call, ghost who: string, ghost done: seq<Call>) returns (inside: bool)
      requires Valid() && Holds(View(), who, done, []) && NUL !in who
      modifies this`cmd, this`dir, this`wait, this`varCount, this`bufLoc, buf, vars
      ensures Valid()
      ensures inside <==> Fits(buf.Length, vars.Length, who, done + [c], [])
      ensures inside ==> Holds(View(), who, done + [c], [])
    {
      hide Holds, Flat, Pieces, VarPieces, StringAt, WithCall, Fits, CallFits;
      ghost var f := View();
      NameReads(buf[..], f, who, done, []);
      CallFitsIff(f, buf.Length, who, done, c);
      NameFirst(f, who, done, []);
      inside := Entry(c, who);
      if inside {
        CallHolds(f, who, done, c);
      }
    }

    /** Appends client variable number `e`. */
    method AddEnv(env: string, e: nat) returns (inside: bool)
      requires Valid()
      modifies this`bufLoc, buf, vars
      ensures Valid()
      ensures inside <==> old(bufLoc) + |env| + 1 <= buf.Length && e + varCount < vars.Length
      ensures inside ==> View() == old(View()).(text := old(View()).text + env + [NUL],
                                                vars := old(View()).vars[e + varCount := |old(View()).text|])
    {
      var at;
      inside, at := Write(env, NUL);
      if !inside || e + varCount >= vars.Length {
        return false;
      }
      vars[e + varCount] := at;
    }

    /** The client's variables go behind those of the workspace. */
    method AddEnvs(ghost who: string, ghost calls: seq<Call>, envs: seq<string>) returns (inside: bool)
      requires Valid() && Holds(View(), who, calls, [])
      modifies this`bufLoc, buf, vars
      ensures Valid()
      ensures inside <==> Fits(buf.Length, vars.Length, who, calls, envs)
      ensures inside ==> Holds(View(), who, calls, envs)
    {
      hide Flat, Pieces, VarPieces, Holds, Fits;
      assert envs[..0] == [];
      var e := 0;
      while e < |envs|
        invariant 0 <= e <= |envs| && Valid() && Holds(View(), who, calls, envs[..e])
      {
        EnvStep(View(), buf.Length, who, calls, envs, e);
        inside := AddEnv(envs[e], e);
        if !inside {
          FitsInPart(buf.Length, vars.Length, who, calls, envs, 0, e + 1);
          return;
        }
        e := e + 1;
      }
      assert envs[..|envs|] == envs;
      HeldFits(View(), buf.Length, who, calls, envs);
      inside := true;
    }

    method WriteName(who: string) returns (inside: bool)
      requires Valid() && View() == Fields("", NULL, NULL, NULL, NULL, 0, seq(vars.Length, _ => NULL))
      modifies this`name, this`bufLoc, buf
      ensures Valid()
      ensures inside <==> |who| + 1 <= buf.Length
      ensures inside ==> Holds(View(), who, [], [])
    {
      hide Holds;
      assert |View().text| == 0 && |vars[..]| == vars.Length;
      var at;
      inside, at := Write(who, NUL);
      name := at;
      if inside {
        assert "" + who == who;
        StartsHolding(View(), who);
      }
    }

    /** `get_task` on a fresh record: succeeds exactly when the workspace defines the task, and then
        the record holds the task's strings without gaps, and reads as the task if the array of
        variables has a cell left that is still NULL. Not inside exactly when the parse or a write
        leaves its buffer. */
    method Fill(who: string, file: Option<string>, envs: seq<string>) returns (inside: bool, ok: bool)
      requires Valid() && View() == Fields("", NULL, NULL, NULL, NULL, 0, seq(vars.Length, _ => NULL))
      requires NUL !in who && (forall e :: 0 <= e < |envs| ==> NUL !in envs[e])
      modifies this, buf, vars
      ensures Valid()
      ensures inside <==> FillStays(buf.Length, vars.Length, who, file, envs)
      ensures inside ==> ok == Load(WorkspaceOf(file), who, envs).Some?
      ensures inside && ok ==> View().text == Flat(Pieces(who, CallsOf(file)) + envs)
      ensures inside && ok && varCount + |envs| < vars.Length ==>
                ReadsAs(buf[..], View(), who, Load(WorkspaceOf(file), who, envs).value)
    {
      hide Holds, Flat, Pieces, VarPieces, ParseText, ParseCalls, Fits, ReadsAs, Load;
      ok := false;
      NameFits(buf.Length, vars.Length, who, CallsOf(file));
      inside := WriteName(who);
      if !inside {
        return;
      }
      if file.None? {
        NoFile(who, envs);
        return;
      }
      var status, calls := IniParser.IniParse(file.value);
      if status == Fault {
        return false, false;
      }
      inside := ReadCalls(who, calls);
      if !inside {
        return;
      }
      if status != Ok {
        UndefinedLoad(file, who, envs);
        return;
      }
      CmdMeansDefined(View(), file, who, envs);
      if cmd == NULL {
        return;
      }
      inside := AddEnvs(who, calls, envs);
      if !inside {
        return;
      }
      HeldText(View(), who, calls, envs);
      if varCount + |envs| < vars.Length {
        assert At(buf[..], 0, View().text);
        FilledReads(buf[..], View(), file, who, envs);
      }
      ok := true;
    }
  }

  /** There is room for what one more call of the handler writes. */
  ghost predicate CallFits(f: Fields, bufSize: nat, who: string, c: Call) {
    c.section == who ==> |f.text| + |Piece(c)| + 1 <= bufSize && (!Reserved(c.key) ==> f.varCount < |f.vars|)
  }

  lemma CallFitsIff(f: Fields, bufSize: nat, who: string, done: seq<Call>, c: Call)
    requires Holds(f, who, done, []) && |f.text| <= bufSize
    ensures CallFits(f, bufSize, who, c) <==> Fits(bufSize, |f.vars|, who, done + [c], [])
    ensures CallFits(f, bufSize, who, c) ==> |VarPieces(who, done + [c])| <= |f.vars|
  {
    hide Flat, Pieces, VarPieces, FieldPiece, PointsAt, Piece;
    CallAppended(who, done, c);
    NothingBehind(Pieces(who, done));
    NothingBehind(Pieces(who, done + [c]));
    FlatAppend(Pieces(who, done), Piece(c));
  }

  lemma NameFirst(f: Fields, who: string, calls: seq<Call>, envs: seq<string>)
    requires Holds(f, who, calls, envs)
    ensures f.name == 0
  {
    hide Flat, Pieces, VarPieces, FieldPiece, PointsAt;
  }

  lemma EnvFits(f: Fields, bufSize: nat, who: string, calls: seq<Call>, envs: seq<string>, env: string)
    requires Holds(f, who, calls, envs)
    ensures |f.text| + |env| + 1 <= bufSize && |envs| + f.varCount < |f.vars|
            <==> Fits(bufSize, |f.vars|, who, calls, envs + [env])
  {
    hide Flat, Pieces, VarPieces, FieldPiece, PointsAt;
    EnvBehind(Pieces(who, calls), envs, env);
    FlatAppend(Pieces(who, calls) + envs, env);
  }

  lemma EnvStep(f: Fields, bufSize: nat, who: string, calls: seq<Call>, envs: seq<string>, e: nat)
    requires e < |envs| && Holds(f, who, calls, envs[..e])
    ensures |f.text| + |envs[e]| + 1 <= bufSize && e + f.varCount < |f.vars|
            <==> Fits(bufSize, |f.vars|, who, calls, envs[..e + 1])
    ensures e + f.varCount < |f.vars| ==>
              Holds(f.(text := f.text + envs[e] + [NUL], vars := f.vars[e + f.varCount := |f.text|]),
                    who, calls, envs[..e + 1])
  {
    hide Holds, Flat, Pieces, VarPieces, Fits;
    assert envs[..e + 1] == envs[..e] + [envs[e]];
    EnvFits(f, bufSize, who, calls, envs[..e], envs[e]);
    if e + f.varCount < |f.vars| {
      EnvHolds(f, who, calls, envs[..e], envs[e]);
    }
  }

  lemma HeldText(f: Fields, who: string, calls: seq<Call>, envs: seq<string>)
    requires Holds(f, who, calls, envs)
    ensures f.text == Flat(Pieces(who, calls) + envs)
  {
  }

  lemma NoFile(who: string, envs: seq<string>)
    ensures Load(WorkspaceOf(None), who, envs).None?
  {
  }

  lemma UndefinedLoad(file: Option<string>, who: string, envs: seq<string>)
    requires file.Some? && ParseText(file.value).status != Ok
    ensures Load(WorkspaceOf(file), who, envs).None?
  {
    hide ParseText;
  }
}
