/** The workspace file format as a line machine: what each line does to the section in force
    and the value still open, which handler calls it makes, and when the parser would step
    outside one of its buffers. */
module IniMachine {
  import opened CBytes

  // The four slices of the parse buffer (INI_BUF_SIZE = 2048).
  const LINE_SIZE := 512
  const SECTION_SIZE := 256
  const KEY_SIZE := 256
  const VALUE_SIZE := 1024

  /** One call of the entry handler. */
  datatype Call = Call(section: string, key: string, value: string)

  /** A key whose value may still grow by continuation lines. */
  datatype Pending = Pending(key: string, value: string)

  datatype State = State(section: string, open: Option<Pending>)

  const START := State("", None)

  // ----- blanks ---------------------------------------------------------------------

  predicate IsSpace(c: char) {
    c == ' ' || c == '\t'
  }

  predicate IsTrailing(c: char) {
    IsSpace(c) || c == '\n'
  }

  function TrimLeft(s: string): (t: string)
    ensures |t| <= |s| && t == s[|s| - |t|..]
    ensures t != [] ==> !IsSpace(t[0])
    ensures forall k :: 0 <= k < |s| - |t| ==> IsSpace(s[k])
  {
    if s != [] && IsSpace(s[0]) then TrimLeft(s[1..]) else s
  }

  function TrimRight(s: string): (t: string)
    ensures |t| <= |s| && t == s[..|t|]
    ensures t != [] ==> !IsTrailing(t[|t| - 1])
    ensures forall k :: |t| <= k < |s| ==> IsTrailing(s[k])
  {
    if s != [] && IsTrailing(s[|s| - 1]) then TrimRight(s[..|s| - 1]) else s
  }

  /** Without blanks in front and blanks and newlines behind. */
  function Trim(s: string): (t: string)
    ensures |t| <= |s|
  {
    TrimLeft(TrimRight(s))
  }

  // ----- lines ------------------------------------------------------------------------

  /** What the parser sees of what fgets delivers: at most 511 characters, a newline only at the
      end, and nothing from the first NUL on. */
  ghost predicate IsLine(l: string) {
    && |l| < LINE_SIZE
    && NUL !in l
    && forall k :: 0 <= k < |l| - 1 ==> l[k] != '\n'
  }

  datatype LineKind =
    | EmptyLine
    | CommentLine
    | HeaderLine(name: string)               // [name]
    | EntryLine(key: string, rest: string)   // key = rest
    | IdleLine                               // no closing ']', or no '=' past column 0
    | Continuation(text: string)             // indented, not blank
    | BlankLine                              // blanks and a newline
    | BlankTail                              // blanks without a newline

  /** What kind of line `l` is. A line that begins with NUL is empty to the parser, which then
      does no more with it than with a comment. */
  function Classify(l: string): LineKind {
    if l == "" then CommentLine
    else if IsSpace(l[0]) then
      if Trim(l) != "" then Continuation(Trim(l))
      else if l[|l| - 1] == '\n' then BlankLine
      else BlankTail
    else if l[0] == '\n' then EmptyLine
    else if l[0] == '#' then CommentLine
    else if l[0] == '[' then
      var k := IndexFrom(l, ']', 1);
      if k == |l| then IdleLine else HeaderLine(l[1..k])
    else
      var k := IndexFrom(l, '=', 1);
      if k == |l| then IdleLine else EntryLine(l[..k], l[k + 1..])
  }

  predicate StartsBlank(k: LineKind) {
    k.Continuation? || k.BlankLine? || k.BlankTail?
  }

  /** A value that is blank but not empty: trimming it walks back past its start. */
  predicate BlankOnly(s: string) {
    s != "" && IsSpace(s[0]) && Trim(s) == ""
  }

  /** `copy_to_buf` puts a newline between pieces, but none in front of the first characters. */
  function Join(value: string, text: string): string {
    if value == "" then text else value + "\n" + text
  }

  // ----- one line ------------------------------------------------------------------------

  datatype Step = Next(st: State, calls: seq<Call>) | Stray | OutOfBuffer

  function Flush(st: State): seq<Call> {
    if st.open.None? then []
    else [Call(st.section, st.open.value.key, st.open.value.value)]
  }

  function StepKind(st: State, k: LineKind): Step {
    match k
    case EmptyLine => Next(State(st.section, None), Flush(st))
    case CommentLine => if st.open.Some? then OutOfBuffer else Next(st, [])
    case HeaderLine(name) =>
      if BlankOnly(name) || |Trim(name)| >= SECTION_SIZE then OutOfBuffer
      else Next(State(Trim(name), None), Flush(st))
    case EntryLine(key, rest) =>
      if |Trim(key)| >= KEY_SIZE || BlankOnly(rest) then OutOfBuffer
      else Next(State(st.section, Some(Pending(Trim(key), Trim(rest)))), Flush(st))
    case IdleLine => Next(State(st.section, None), Flush(st))
    case Continuation(text) =>
      if st.open.None? then Stray
      else
        var value := Join(st.open.value.value, text);
        if |value| >= VALUE_SIZE then OutOfBuffer
        else Next(State(st.section, Some(Pending(st.open.value.key, value))), [])
    case BlankLine => if st.open.None? then Stray else OutOfBuffer
    case BlankTail => if st.open.None? then Stray else Next(State(st.section, None), [])
  }

  function StepLine(st: State, l: string): Step {
    StepKind(st, Classify(l))
  }

  // ----- whole files --------------------------------------------------------------------

  datatype Status = Ok | Invalid | Fault

  /** The calls made while reading the lines, how reading ended, and the state it left. */
  datatype Outcome = Outcome(calls: seq<Call>, status: Status, last: State)

  function Preceded(calls: seq<Call>, o: Outcome): Outcome {
    o.(calls := calls + o.calls)
  }

  function Read(st: State, ks: seq<LineKind>): Outcome
    decreases |ks|
  {
    if ks == [] then Outcome([], Ok, st)
    else
      match StepKind(st, ks[0])
      case Next(next, calls) => Preceded(calls, Read(next, ks[1..]))
      case Stray => Outcome([], Invalid, st)
      case OutOfBuffer => Outcome([], Fault, st)
  }

  ghost predicate AllLines(ls: seq<string>) {
    forall i :: 0 <= i < |ls| ==> IsLine(ls[i])
  }

  function Kinds(ls: seq<string>): (ks: seq<LineKind>)
    ensures |ks| == |ls|
    ensures forall i :: 0 <= i < |ls| ==> ks[i] == Classify(ls[i])
  {
    if ls == [] then [] else [Classify(ls[0])] + Kinds(ls[1..])
  }

  /** All calls of a parse: a value still open at the end is handed over too. */
  function ParseCalls(o: Outcome): seq<Call> {
    if o.status == Ok then o.calls + Flush(o.last) else o.calls
  }

  /** How far one fgets reads. */
  function ChunkEnd(text: string): (n: nat)
    ensures n <= |text| && n < LINE_SIZE && (text != "" ==> n > 0)
  {
    var k := IndexFrom(text, '\n', 0);
    if k < LINE_SIZE - 1 && k < |text| then k + 1
    else if |text| < LINE_SIZE then |text| else LINE_SIZE - 1
  }

  /** The lines as the parser sees them: each ends at its first NUL, if it has one. */
  function SplitLines(text: string): seq<string> {
    if text == "" then []
    else [StringAt(text[..ChunkEnd(text)], 0)] + SplitLines(text[ChunkEnd(text)..])
  }

  /** `ini_parse` on the contents of a file. */
  function ParseText(text: string): Outcome {
    Read(START, Kinds(SplitLines(text)))
  }
}
