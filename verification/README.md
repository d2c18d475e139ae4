# dpatch: a verified model

dpatch is a small task-runner daemon. A client turns its command line into a message of tokens; the
server decodes it, looks the task up in an INI-style workspace file, packs it into a record in its
task store, and launches it into its process store or leaves it waiting until a process of a given
name has gone. This project models those parts and proves what they promise, alone and together.

How the modules stand on each other:

- `CBytes` - bytes, NUL-terminated strings inside buffers, 32-bit little-endian integers.
- `SlotStore` / `FlatStore` - the slot store as a value (slots and a free list), and as the flat
  byte buffer it really is, each method proved against the value.
- `ClientStack` - the bounded stack of client sockets with its two ways of removing.
- `ArenaPool` / `Arena` - the arena as pages with bump marks, and as the linked list of regions.
- `TokenCodec` / `TokenStreams` - the wire format as functions, and the token-stream object whose
  loops write and read it in a buffer.
- `ClientCommand` - the client's token building, and what arrives at the server.
- `IniMachine` / `IniGrammar` / `IniPrinter` / `IniStops` / `IniParser` - the workspace format as a
  machine over lines, as a grammar of entries, as documents with a printer; where reading a file
  stops, told from its lines; and the parser itself: the character loop over mode and buffers, proved
  to do what the line machine does.
- `TaskRecord` - what a workspace says about a task, and the record its strings are packed into.
- `Scheduler` - the scheduler as a transition system (submit, completion, change of workspace), with
  the outcomes of the operating system as inputs. A process is running while it has an entry in the
  process store.
- `SchedulerOutcomes` - what one event or request does, slot by slot, in terms of the stores alone.
- `SchedulerSafety`, `SchedulerExclusion`, `SchedulerDrain` - what holds in all its runs.
- `SchedulerSweeps` / `ServerLoop` / `Server` - the two descending sweeps and the main loop as
  functions, and the server object whose methods are proved to do exactly that.
- `EndToEnd` - from the typed words to the scheduler, into a zeroed buffer and within a pass of the
  main loop.

Where a C function updates something in place, a method here does, and its contract equates the new
state with a function of the old one; the lemmas about these functions are the properties. Where the C
code may step outside a buffer, the method guards the access, reports it (`Fault`, None, or not
`inside`), and its contract says exactly for which inputs that happens.

## Where the code departs from its own documentation or intent

Each of these is kept as the code has it and is stated by a lemma or a contract.

- A `#` line directly below an entry makes the parser trim in front of its line buffer
  (src/ini.h:128-130 and 168-174). The example workspace of the repository's README (README.md:45-48)
  has one: `IniPrinter.ReadmeExampleFaults`. A blank-only line under an entry does the same; a rest of
  blanks after `=` and a blank-only section name put the terminator in front of the value or section
  buffer; and keys, names and values that are too long run off the end of theirs. The parser's methods
  end with `Fault` at the first such access, `IniParser.OutOfBufferIff` ties the line machine's
  `OutOfBuffer` to the index that leaves its buffer, and `IniStops.StatusIff` says for every file
  whether and at which line it happens.
- A line of blanks that ends the file without a newline silently drops the entry above it
  (src/ini.h:100-104 and 239): `IniStops.BlankTailDropsEntry`, and for any file `IniGrammar.CallsCount`.
- Tokens the writer skips are still counted, so the reader reads on behind the message
  (src/protocol.h:132-137); every client message has such tokens (src/client.h:58). The receiver gets
  the sender's words exactly when what it finds there decodes, inside the buffer, to tokens of which
  none is an argument or a variable (`TokenCodec.DeliveredIff`), as zero bytes do. The receive buffer
  is zeroed once per server loop and not per client (src/net.h:166), so the second message of a sweep
  can pick up a variable of the first: `ClientCommand.SecondMessageOfSweepCanLeak`.
- The length prefix counts four bytes more than prefix and message, and that many bytes are sent
  (src/protocol.h:178-187): `TokenStreams.TokenStream.Send`.
- The queue compares names only up to the length of the finished name (src/server.h:308), so a task
  that waits for itself can run twice when another task's name is a proper prefix of its name.
  `SchedulerExclusion.RunsAloneIff` gives the exact condition under which it cannot.
- An arena page added on demand is exactly as large as the request (src/arena.h:134), so it never
  serves a later request of more than 0 bytes: `ArenaPool.GrownPagesAreFull`. A lock without preallocated pages has no effect
  (src/arena.h:67-73).
- A `-e` that ends the command line takes the program's own name as its variable, because the array of
  argument indices is zeroed memory (src/client.h:67-70): `WordAt` in `ClientCommand`.

## Model

| member | source | states |
|---|---|---|
| SlotStore.StoreIsPartialMap | src/store.h:56-182 | After any sequence of push, replace, remove and reset, the free list names exactly the unused slots, and every further operation is the partial-map operation it implements: push takes an unused slot when some slot is free and changes nothing otherwise |
| SlotStore.UsedPlusFree | src/store.h:171-175 | Used slots and free slots add up to the capacity, so capacity minus free count is the number of stored items |
| SlotStore.PushAfterRemove | src/store.h:62-67 | The free list is a stack: a slot freed and refilled at once is the same slot, and the free list is as before |
| SlotStore.RemoveAfterPush | src/store.h:103-169 | Filling a slot and freeing it again leaves no trace |
| FlatStore.CellsUpdate | src/store.h:56-60 | In the flat buffer of stride item size + 1, changing bytes of one cell changes no other item |
| FlatStore.Store.ItemLiesAt | src/store.h:56-60 | Slot i is used iff byte i * (size + 1) is not zero, and its item is the size bytes behind that one |
| FlatStore.Store.constructor | src/store.h:69-94 | A new store is the empty map with slot 0 handed out first |
| FlatStore.Store.ResetOpen | src/store.h:69-76 | The free list is refilled with all slots, lowest on top |
| FlatStore.Store.GetPushIndex | src/store.h:62-67 | Takes the last freed slot off the free list, or reports that none is free |
| FlatStore.Store.Push | src/store.h:103-115 | Succeeds iff a slot is free; the slot then holds exactly the item, and no byte outside its cell changes |
| FlatStore.Store.PushEmpty | src/store.h:117-129 | The same with a zeroed item, whatever the slot held before |
| FlatStore.Store.Get | src/store.h:131-137 | Finds the item's offset iff the slot is used |
| FlatStore.Store.IsUsed | src/store.h:139-142 | The flag byte says whether the slot is used |
| FlatStore.Store.Replace | src/store.h:144-155 | Replaces the item iff the slot is used, and no byte outside its cell changes |
| FlatStore.Store.RemoveAt | src/store.h:157-169 | Frees the slot iff it is used, changing one byte of the buffer; any index, in range or past the end |
| FlatStore.Store.Length | src/store.h:171-175 | Returns the number of stored items |
| FlatStore.Store.Reset | src/store.h:177-182 | Makes the store empty |
| ClientStack.SwapRemoveBag | src/stack.h:99-110 | Fast removal takes out one occurrence of the element, keeps all others, and moves nothing below the index |
| ClientStack.SwapRemoveAt | src/stack.h:99-110 | Index by index: the last element takes the gap and every other stays |
| ClientStack.OrderedRemoveAt | src/stack.h:86-97 | Index by index: the elements behind the gap move down one place |
| ClientStack.RemovalsAgree | src/stack.h:86-110 | Shifting removal and fast removal leave the same multiset |
| ClientStack.Stack.Push | src/stack.h:55-61 | Appends, or refuses at capacity and changes nothing |
| ClientStack.Stack.Pop | src/stack.h:72-78 | Takes the last element off, if any |
| ClientStack.Stack.Get | src/stack.h:80-84 | Reads the element, for any index, negative ones included |
| ClientStack.Stack.RemoveAt | src/stack.h:86-97 | The shifting loop removes the element and keeps the order of the rest |
| ClientStack.Stack.RemoveAtFast | src/stack.h:99-110 | Removes the element by moving the last one into its place |
| ArenaPool.BlocksDisjoint | src/arena.h:116-147 | Over any run of requests every block lies inside one region, has the size asked for, and no two blocks overlap |
| ArenaPool.LockedCapacity | src/arena.h:58-97 | A locked arena of n pages of size S serves exactly n * floor(S / s) requests of size s, and they are the first ones |
| ArenaPool.RefusedIff | src/arena.h:116-147 | A request fails, changing nothing, iff there is no page, it is larger than the first page, or the arena is locked and every region has less room than asked |
| ArenaPool.ServedFirst | src/arena.h:122-143 | A request that is served takes the first region with room, where its used part ends, or a new region that it fills; no other region changes |
| ArenaPool.UnlockedServes | src/arena.h:58-147 | An arena without a lock, or with one but nothing preallocated, serves every request of at most the page size, however many come |
| ArenaPool.GrownPagesAreFull | src/arena.h:131-141 | Regions added on demand have no byte left from the start and stay so |
| Arena.Allocator.constructor | src/arena.h:58-97 | Builds the list of preallocated regions and locks its tail |
| Arena.Allocator.Alloc | src/arena.h:116-147 | The walk along the region list serves each request as first fit over the pages, and grows only an unlocked tail |
| TokenCodec.RoundTrip | src/protocol.h:89-153 | Deserialise after serialise is the identity on every non-empty stream without skipped tokens, wherever it lies in a buffer and whatever follows, and both cursors stop at the same byte |
| TokenCodec.SkippedComeBackAsPhantomsIff | src/protocol.h:107-150 | With k skipped tokens, decoding yields the kept tokens in order and then k (NONE, "") tokens iff 2k zero bytes follow the encoding |
| TokenCodec.FramingAgrees | src/protocol.h:176-203 | The length the reader derives from the prefix is the cursor the serialiser returned |
| TokenCodec.DeliveredIff | src/protocol.h:89-203 | Whatever lies in the buffer, reading and parsing the packet gives the message kind and the sender's arguments and variables in order, skipped tokens left out, iff the bytes behind the message decode inside the buffer to tokens of which none is an argument or a variable |
| TokenCodec.Delivered | src/protocol.h:89-203 | In particular: with two zero bytes behind the message per skipped token, reading and parsing the packet gives the message kind and the sender's arguments and variables in order |
| TokenCodec.StaleVariable | src/protocol.h:107-118 | A variable token left in the buffer where skipped tokens are looked for is read as one more variable |
| TokenCodec.MalformedIff | src/protocol.h:97-99 | A received buffer reads as malformed iff it has a header and the header counts less than one token |
| TokenStreams.TokenOnWire | src/protocol.h:135-150 | A token of kind NONE or without a value leaves no byte on the wire; any other leaves kind, value and NUL, in its place |
| TokenStreams.TokenStream.Reset | src/protocol.h:74-78 | Clears the slots in use and no others |
| TokenStreams.TokenStream.AddToken | src/protocol.h:80-87 | Appends one token |
| TokenStreams.TokenStream.ToBuf | src/protocol.h:123-153 | The writing loops put the encoding at the start offset, change nothing else, and return the offset behind it |
| TokenStreams.TokenStream.FromBuf | src/protocol.h:89-121 | For any buffer: the reading loops leave the buffer or the token array exactly when decoding runs off the end or the header counts more tokens than there are slots; otherwise the stream holds the decoded message, and a count below 1 is refused and leaves the stream alone |
| TokenStreams.TokenStream.Parse | src/protocol.h:155-174 | Arguments and variables are collected in order, each list closed by NULL; the loop leaves an array exactly when its values leave no cell for the NULL |
| TokenStreams.TokenStream.Send | src/protocol.h:176-188 | The bytes handed to the socket are prefix, message and four bytes of whatever the buffer held behind it |
| TokenStreams.TokenStream.Read | src/protocol.h:190-203 | Succeeds iff the message behind the prefix decodes, and then holds it; leaves its memory exactly when decoding does |
| TokenStreams.TokenStream.Request | src/server.h:327-341 | Reading and then parsing a received packet, with argument arrays of `length` cells, yields the decoded request, and stays inside buffer, stream and arrays exactly when the decoded tokens fit them |
| ClientCommand.EvalCmds | src/client.h:58-81 | The loop leaves as many old slots as there are words after the command, followed by one token per plain word or flag |
| ClientCommand.TypedWords | src/client.h:60-78 | A command line of plain words and flagged variables is taken apart into just these, in order; a flag with nothing behind it adds the program's name |
| ClientCommand.WireExample | src/protocol.h:123-187 | The bytes of one message, spelled out |
| ClientCommand.SendCommand | src/client.h:58-97 | A fresh stream filled from the words and written out: the bytes sent are the packet of the client's message |
| ClientCommand.TokensReachServer | src/protocol.h:89-121 | Received into zeros, the message decodes to the client's tokens in order followed by one blank token per word behind the command |
| ClientCommand.WordsReachServer | src/client.h:58-78 | For any two or more words, a message that fits a zeroed receive buffer is read by the server as the plain words and the words behind each flag, both in order; reading it stays inside the server's memory iff the stream has a slot for each token counted, so both terminators land inside arrays of that length |
| ClientCommand.TerminatorFitsIff | src/server.h:333-336 | The closing NULL of an argument array of `length` slots lands inside it iff some token is of another kind |
| ClientCommand.ClientTerminatorsFit | src/server.h:333-336 | For every message of the client both terminators fit |
| ClientCommand.SecondMessageOfSweepCanLeak | src/net.h:156-167 | A concrete pair of messages in one sweep where the second task is given a variable of the first |
| IniGrammar.MachineRefinesGrammar | src/ini.h:90-177 | From any section, the line machine ends as the grammar says and, ending well, makes exactly the grammar's calls: each entry's value joined from its first line and the indented lines below it, and no call for an entry cut off by a line of blanks without a newline |
| IniGrammar.ParseFollowsGrammar | src/ini.h:212-247 | The same for the lines of a whole file: calls, success, refusal and faults are those of the grammar |
| IniGrammar.ParseTextFollowsGrammar | src/ini.h:212-247 | The same for the characters of any file |
| IniGrammar.CallsCount | src/ini.h:90-177 | In a file read to its end the handler calls and the lines of blanks without a newline together are as many as the entry lines |
| IniGrammar.JoinedFiles | src/ini.h:110-136 | Two files joined by an empty line make the calls of the first, then those of the second read from the section the first left behind |
| IniGrammar.JoinedTexts | src/ini.h:212-247 | The same for the characters of the files, split by `fgets` |
| IniPrinter.PrintThenParse | README.md:41-75 | Parsing the printed form of any well-formed document succeeds and makes exactly the document's calls in order, for every choice of spaces and tabs around names, keys and texts and in front of indented lines, and with lines in between that open nothing |
| IniPrinter.ReadmeExampleFaults | README.md:44-48 | Any file that begins like the documented example, with any one-line comments and anything below, makes the parser leave a buffer |
| IniStops.StatusIff | src/ini.h:90-177 | For every file: it is read to its end iff no line stops the parse, refused iff the first line to stop it is indented with no value open, and the parser leaves a buffer iff that line cannot be read inside the buffers - a comment or blank line below an open value, a blank-only or too long name, key or rest, or a value that grows too long |
| IniStops.InvalidIff | src/ini.h:99-109 | For every file: it is refused iff the first line to stop the parse is indented with no value open, and the calls made by then are those of parsing only the lines above it |
| IniStops.BlankTailDropsEntry | src/ini.h:98-104 | Blanks and no newline behind a document that ends in an entry: the parse succeeds and makes all the document's calls but the last entry's |
| IniStops.IndentRefused | src/ini.h:99-109 | A space or tab in front of the line below a document that does not end in an entry makes the parse fail, after the document's calls |
| IniStops.CommentFaults | src/ini.h:128-130 | A comment directly below the last entry of any document makes the parser leave its line buffer |
| IniParser.OutOfBufferIff | src/ini.h:58-177 | For any line, buffer contents and parser variables, the line machine says `OutOfBuffer` iff an index of one of the copies the line makes - a trim loop, a copied character, the newline or the terminator - leaves its buffer |
| IniParser.TrimStartEnd | src/ini.h:58-66 | From any indices the two loops stop where a scan over the buffer stops, and leave the line exactly when that scan does |
| IniParser.CopyToBuf | src/ini.h:68-82 | The buffer then holds the old string, a newline if there was one, and the copied part, and its length is returned; a write leaves the buffer exactly when the newline or the terminator does not land in it |
| IniParser.CopyTrimmedToBuf | src/ini.h:84-88 | The two composed |
| IniParser.Parser.FirstChar | src/ini.h:98-137 | What the first character of a line does to mode, positions and handler calls |
| IniParser.Parser.NextChar | src/ini.h:138-162 | What each later character does; it fails exactly when the copy at a closing bracket or `=` leaves a buffer |
| IniParser.Parser.ParseLine | src/ini.h:90-177 | For any line and any mode it may start in, the character loop has exactly the effect of the line machine's step, and leaves a buffer exactly when the machine says so |
| IniParser.Parser.Fgets | src/ini.h:234-237 | Delivers the next characters up to and with a newline, 511 of them or the end of the text; the parser sees them up to the first NUL |
| IniParser.IniParse | src/ini.h:212-247 | For every text the parse ends as the line machine does, leaving a buffer exactly when the machine does, and otherwise with its handler calls |
| TaskRecord.PiecesMean | src/server.h:119-140 | The packed strings the fields point at are the last `cmd`, `dir` and `wait` entry of the section, and the variables are its other entries as name=value in file order |
| TaskRecord.LastValueIs | src/server.h:124-132 | The value of a key is that of the entry of that section and key behind which there is no other |
| TaskRecord.OtherEntriesAre | src/server.h:133-136 | The variables are the section's entries under keys other than `cmd`, `dir` and `wait`, all of them, in order, as name=value |
| TaskRecord.LoadedIff | src/server.h:158-201 | A file defines a task iff it can be read, parses, and has a `cmd` entry in its section; the task has these values, and the client's variables come last |
| TaskRecord.PiecesApart | src/server.h:108-117 | Any two packed strings, terminators included, occupy ranges that do not overlap |
| TaskRecord.PieceReads | src/server.h:108-117 | Every packed string without NUL reads back through its offset |
| TaskRecord.RecordReads | src/server.h:158-201 | A finished record reads as the task: name, cmd, dir, wait, then the workspace's variables, the client's, and a NULL |
| TaskRecord.ParseTextual | src/ini.h:212-247 | Whatever the file holds, the handler is called with strings without NUL |
| TaskRecord.Task.Write | src/server.h:108-117 | Appends the string and its end character to the packed text and returns where it starts, iff they fit the buffer |
| TaskRecord.Task.Entry | src/server.h:119-140 | One call of the entry handler sets the field or appends the variable iff the section is the task's name, and leaves the record exactly when string or pointer does not fit |
| TaskRecord.Task.AddEnv | src/server.h:189-198 | One client variable goes behind those of the workspace, iff it fits |
| TaskRecord.Task.Fill | src/server.h:158-201 | For any file and variables: stays inside its memory iff the parse does and the strings and pointers fit; then it succeeds iff the workspace parses and gives the task a command, and the record reads as the task, its strings packed without gaps and their total length in `buf_loc`, provided one cell is left for the closing NULL |
| SchedulerSafety.Conservation | src/server.h:203-277 | In every run, accepted tasks are those waiting plus those launched, and launched processes are those live plus those reaped, as multisets: nothing is lost or launched twice |
| SchedulerOutcomes.FinishOutcome | src/server.h:595-625 | A process found finished is replaced, in its slot, by the highest waiting task that waits for nothing or for a name the finished one begins, if there is one and the fork succeeds; else its slot is empty and the tasks stay; every other slot is as before |
| SchedulerOutcomes.SubmitServed | src/server.h:343-372 | A submission is refused iff it has no name, the task is undefined or no task slot is empty; else the task is accepted, left waiting iff some live process has the awaited name, launched into an empty process slot if there is one and the fork succeeds, and kept in the task store otherwise |
| SchedulerOutcomes.RequestHandled | src/server.h:342-407 | For every request: a run request is that submission, a workspace request makes an existing file the workspace and changes nothing otherwise, anything else changes nothing, each with its answer |
| SchedulerOutcomes.SweepOutcome | src/server.h:588-631 | The process sweep reaps exactly the processes live at its start that have finished, from the highest slot down, and leaves every other slot as it was |
| SchedulerExclusion.RunsAloneIff | src/server.h:279-323 | With a fixed workspace, a task waiting for its own name has at most one process in every run iff no other task's name is a prefix of its name (or the stores are too small for a second) |
| SchedulerExclusion.LaunchedAlone | src/server.h:279-317 | Under that condition, whenever a task that waits for the name is launched, directly or from the queue, no process of that name is live |
| SchedulerDrain.NeverRefused | src/server.h:209-212 | With self-waiting tasks, names that do not prefix each other, forks that succeed and room for every name, no submission meets a full process store and every waiting task has a live process of its name |
| SchedulerDrain.Drains | src/server.h:295-323 | Once submissions stop, n completions leave n fewer waiting tasks and live processes together, and something is live as long as anything is left |
| SchedulerDrain.ComesToRest | src/server.h:587-626 | From every such state as many completions as there are tasks and processes lead to rest |
| SchedulerSweeps.FinishKeepsOthers | src/server.h:624-625 | A completion with its launch from the queue touches no process slot but its own |
| SchedulerSweeps.SweepPollsOnce | src/server.h:588-631 | The descending sweep asks after every process live at its start exactly once, and never after one launched during the sweep |
| SchedulerSweeps.SweepIsRun | src/server.h:588-631 | A process sweep is a run of completion events |
| SchedulerSweeps.ClientSweep | src/server.h:555-585 | Although removal moves sockets during the loop, each socket is visited exactly once, last first, each packet is answered exactly once in that order, the sockets left are the starting multiset minus those answered, closed or zero, and the requests have been run in that order, each as read from the receive buffer the ones before it left |
| ServerLoop.PassesAreRun | src/server.h:540-633 | Any number of passes of the main loop is a run of events |
| ServerLoop.PassesAppend | src/server.h:540-633 | Passes follow one another |
| ServerLoop.LoopIsSafe | src/server.h:540-633 | After any number of passes, whatever clients send and however processes end: conservation, and exclusion under its condition while no request changes the workspace |
| Server.Server.TaskLaunch | src/server.h:203-277 | Launches iff a process slot is free and the fork succeeds; the process takes the next slot; otherwise nothing changes |
| Server.Server.WaitMatch | src/server.h:279-293 | The scan says whether some process slot holds a process of the awaited name |
| Server.Server.CheckTaskQueue | src/server.h:295-323 | Launches and removes the released task of the highest slot, at most one, and nothing when that launch fails |
| Server.Server.GetTask | src/server.h:158-201 | Takes a slot iff there is a name, a free slot and a defined task; otherwise the stores are exactly as before |
| Server.Server.RunTask | src/server.h:343-372 | The run request as a whole: what happens to the task, and the answer; a failed launch leaves the task in the store |
| Server.Server.Respond | src/server.h:87-102 | Answers once and takes the socket out |
| Server.Server.Serve | src/server.h:342-407 | Every path answers exactly once and removes the socket exactly once, with effect and answer as `SchedulerOutcomes.Handled` tells them for every kind of request |
| Server.Server.ReadInto | src/server.h:563-563 | A read puts the received bytes at the front of the receive buffer and leaves the rest as it was |
| Server.Server.EvalPacket | src/server.h:325-407 | From the bytes in the receive buffer: the request they decode to is served, answered once and its socket removed once |
| Server.Server.HandleIncoming | src/server.h:450-483 | A connection joins the stack unless the limit is reached |
| Server.Server.ReadClients | src/server.h:555-585 | The client loop is the client sweep |
| Server.Server.CheckProcesses | src/server.h:588-631 | The process loop is the process sweep, and asks after exactly the processes live at its start, from the highest slot down |
| Server.Server.Iterate | src/server.h:540-633 | One pass of the main loop - zeroing the buffer, a new connection, the client loop, the process loop - is the loop's pass function |
| EndToEnd.CommandReachesScheduler | src/server.h:325-407 | A command of any kind, received into a zeroed buffer, is read as the plain words behind the command word and the words behind each flag, and handled as that request: a run command as a submission of the first plain word, a workspace command as a change to the file it names |
| EndToEnd.RunCommand | src/client.h:58-97 | The same for the programs: token building, serialising, receiving, decoding, parsing and serving, one after the other on their own buffers, leave the server in that state, with one answer more and the client's socket gone |
| EndToEnd.FirstPacketOfPass | src/net.h:156-167 | Whatever earlier passes left in the receive buffer, the first client of a pass that sends a command gets what it asks for: its request is handled in the state the pass starts in and is the first answered |
| EndToEnd.SecondPacketOfPassLeaks | src/net.h:166-166 | The second need not: in a pass over two concrete messages the second task is given a variable of the first |
| EndToEnd.PassReaps | src/server.h:588-631 | In every pass each process live at its start is reaped if it has finished and keeps its slot if not, whatever the clients of the pass ask for |

## Left out

- Sockets, `select`, `accept`, pipes, `fork`, `execve`, `waitpid`, opening files: what they yield is an input of the events, requests and methods.
- Logging, printed output, time formatting, signals, `daemonize`, cleanup at exit, and the text and sending of the server's answers: an answer is its kind and its socket.
- Recognition of command words and option parsing: the kind of the message and the list of argument words are given.
- The unimplemented information commands, `stack_push_new`, `stack_reset`, `store_free`, `arena_free`, the commented-out section parser and everything under `src` not named above.
- Order and fairness of the queue: the scan launches one task per completion from the highest slot, so nothing is promised about a second task waiting for the same other name.
- Alignment, `size_t` wrap-around and native `int` layout: an `int` on the wire is four little-endian bytes, sizes are natural numbers. Failing `malloc` ends the program and is not modelled.
- Aliasing of decoded token values with the receive buffer: values are copied when they are decoded.
- Negative slot indices of the store, which its callers never pass.
- Server.Server: its task and process stores are slot values; that the byte stores of `FlatStore` keep such values is proved there, and the record inside a slot in `TaskRecord`, but the three are not joined in one object.
- Server.Server.EvalPacket: requires that decoding stays inside the receive buffer and the token stream (`TokenCodec.RequestStays`), since what the code does otherwise is undefined; so do `Visit`, `ReadClients` and `Iterate`. Whether there is a file of the name a workspace request gives, and what it parses to, comes with the request, and the file is taken not to change on disk until the next such request.
- Server.Server.CheckProcesses: does not model the output of running processes, which is read into the receive buffer too (src/server.h:485-502); the buffer is zeroed before the next client is read.
- ClientCommand.WordsReachServer: speaks of the first message read after the buffer was zeroed; a later one in the same sweep need not arrive intact, as `ClientCommand.SecondMessageOfSweepCanLeak` shows.
- EndToEnd.RunCommand: takes the client's send buffer to be zeroed, as fresh arena memory is; what other contents of it do behind the message is part of `TokenCodec.DeliveredIff`.
- ServerLoop.LoopIsSafe: a packet whose decoding leaves a buffer counts as malformed there; the methods exclude it.
- TaskRecord.Task.Fill: the handler calls are made after the parse instead of during it, and a task name longer than a process slot's name buffer is not modelled.
- IniParser.IniParse: says nothing about the handler calls of a parse that leaves a buffer.
- SchedulerExclusion.RunsAloneIff: the workspace is fixed, because a new one can change what a task waits for.
- SchedulerDrain.NeverRefused: speaks of submissions; that a completion's launch finds the slot it just freed is part of `SchedulerDrain.Drains`.
