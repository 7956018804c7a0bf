# Verified models of skynet's cores

skynet is an actor runtime in C with Lua and LPeg in its tree. This project models
the cores whose correctness is not visible in any one function, and proves them
against simple specifications:

* **The LPeg compiler and matching machine** (`Lpeg*.dfy`). A pattern tree has a
  meaning as a parsing expression (`LpegTree.Eval`). It is analysed, compiled to
  backtracking code with optimisations that depend on the context, rewritten by the
  tail-call and peephole passes and run by a stack machine. The main result is
  `LpegProgram.ProgramCorrect`: for every finished pattern the optimised program
  ends on every subject without a failed assertion, and its answer is exactly the
  meaning. `LpegCompiler` has the code generator, the peephole loop and the
  interpreter loop as the source runs them; `MatchPattern` puts them together.
  How trees come about is there too: the operators with their simplifications and the
  powers (`LpegBuild`), trees as arrays of nodes that are built and made right
  associative in place (`LpegFlat`), and sets of bytes in their compact form, from
  `charsettype` to the test of the machine (`LpegCharset`). Which patterns are accepted
  is said of their parts and of the subjects they match (`LpegAccept`).
* **The timing wheel** (`TimerWheel.dfy`). 256 near lists and 4 levels of 64 lists on
  a clock of 32 bits that wraps. Every timer fires exactly once, in the update in
  which the clock reaches its deadline, and timers with one deadline fire in the
  order in which they were added.
* **The mailbox protocol** (`Mailbox.dfy`, `MessageQueue.dfy`). Senders, workers,
  launchers and killers as steps of any number of threads: ownership of queues,
  reference counts, the two-sided release handshake, FIFO delivery, and the ring
  buffer and global list below it. `MailboxRun.dfy` says what the calls do over runs:
  a message that is sent arrives, a service that is retired is gone, a launch publishes,
  a worker hands out as many messages as its weight says.
* **The TCP side of the socket server** (`SocketStream.dfy`, `SocketConn.dfy`,
  `SocketSpec.dfy`, `SocketServer.dfy`). Two priority lists, partial writes, direct
  writes by other threads, half-close states: what is on the wire, which events are
  raised, and which messages may be lost. `SocketSpec.Next` is what one event makes of
  a connection; the methods of `SocketServer` are proved to do just that. What that
  means is said of the states and the events of a run alone: which events are raised
  (`SocketRun.dfy`), and what is accepted, sent, refused and ended (`SocketOut.dfy`).
* **Locks, tables and arithmetic.** The spinning reader/writer lock as interleaved
  atomic steps (`Rwlock.dfy`), the handle table with its doubling and its sorted names
  (`HandleTable.dfy`), the two-pass index of shared data (`ShareData.dfy`), Lua's
  compressed line table and its readers (`LineTable.dfy`), and powers modulo
  2^64-59 in wrapping 64-bit arithmetic (`PowModP.dfy`).
* **Streams and codecs.** The serial format of Lua values with its writer over linked
  blocks and its reader (`SeriFormat.dfy`, `SeriCodec.dfy`), its bytes one by one and
  that no form is longer than it has to be (`SeriLayout.dfy`), and the three framings of
  a byte stream: netpack (`Netpack.dfy`), the gate (`Gate.dfy`) and the harbor
  (`Harbor.dfy`). However a stream is cut into chunks, the frames are those of all of it.

Check all files together, with `dafny verify dfyconfig.toml`.

## Where the source does less than it promises

* `verifyrule` (lptree.c:1093-1133) passes a flag down for "something before this
  point can match the empty string", and returns `nullable(tree)` for a sub-grammar
  without it. A predicate around a grammar that cannot match the empty string, such as
  `A <- !{ 'a' } A`, is then accepted although it is left recursive.
  `LpegVerify.LostFlagExample` shows that it is accepted and never ends. The exact
  condition is that no rule reaches itself by left calls over parts that may match the
  empty string: `LpegVerify.AcceptedIff` proves that the patterns accepted by the source
  that meet it are those which a check that keeps the flag would accept, and
  `AcceptedTerminates` that they end.
* `force_close` (socket_server.c:481-512) frees the lists of a connection before it
  takes the lock of direct writes. A sender that checks in between sees empty lists
  and a socket that is still connected, and writes its message, although a message
  of which a part is out has just been freed. `SocketServer.TornMessage` is a run in
  which this breaks the stream; `SocketServer.DirectWrite` and `Drive` prove that the
  stream is intact exactly when no write falls into that window.
* `close_socket` (socket_server.c:1148-1180) closes at once when nothing is left to send.
  A sender that is writing directly at that moment is not seen: if only a part of its
  message goes out, the rest waits in `dw_buffer` when the close gets the lock, and is
  freed. `SocketServer.CaughtMessage` is such a run. `SocketServer.Drive` proves that in
  a run without shutdown, hang-up and failures this is the only way to lose a message,
  and always one; a connection that ends without it has sent all that it accepted.
* `skynet_context_new` (skynet_server.c:162-168) writes `ctx->init` after it has given
  its own reference away. In the model that is a step of its own. `Mailbox.LateWrite` is
  a run in which another thread has deleted the context before; `Mailbox.DeletedIff`
  proves that this is so if and only if the context is no longer registered and no
  thread has a reference.
* `powmodp` (lua-crypt.c:830-836) reduces its base only when it is greater than P, so
  P itself stays, and its first power comes back as P instead of 0.
  `PowModP.PowModulo` states that the result is the power modulo P if and only if the
  base is not P or the exponent is not 1. The values that `ldhexchange` makes are below
  P, so `KeyExchange` holds without a condition.
* Integer keys of shared data are cut to 32 bits (lua-sharedata.c:197). A wider key that
  falls into the array part is counted for a node it does not get
  (`ShareData.WideHole`). As many nodes are needed as were counted if and only if no
  such key falls (`ShareData.NodesCountedIff`), and the index is exactly full if and only
  if that holds and no two of the counted keys are cut to one (`ShareData.FullIff`,
  `ShareData.SeparateIff`). A wider key in a query finds the entry of its low half;
  `ShareData.ReadRight` says exactly when a reading is right.
* The gate forwards a frame only when there is a receiver, but forgets its header in any
  case (service_gate.c:168-191), so that its bytes are then read as headers:
  `Gate.Connection.Forward` states that the frame leaves the buffer if and only if there
  is a receiver. Nothing is lost without a receiver if and only if no frame is reached
  (`Gate.NothingLostIff`), and the stream goes on in step if and only if all that was
  read passes as headers (`Gate.InStepIff`, with `Gate.OutOfStep` for a stream that does
  not).
* `close_harbor` (service_harbor.c:230-242) does not reset `read`. If a link was closed
  because of a length that was too long, and that length had come in several pieces,
  nothing gets through a new connection of the link: `Harbor.StaleRun` is a run,
  `Harbor.NothingThrough` proves it for any such link and any data, and
  `Harbor.StaleIff` that a link works again if and only if no byte is left.
* `filter_data_` (lua-netpack.c:228-308) returns a package at once when it is all that a
  chunk completes, though earlier ones of its connection may wait in the queue:
  `Netpack.Overtaken`. With the packages of a stream numbered (`Netpack.Places`,
  `Netpack.PlacesRight`), `Netpack.InOrder` proves that those of a connection come out in
  order if and only if that does not happen, and `Netpack.NoneLost` that none is lost or
  made up in any case.
* `skynet_handle_register` (skynet_handle.c:40-59) goes from handle 0xffffff to 1, so
  that a scan which wraps passes over the first slot: a table may be doubled though that
  slot is free. `HandleTable.ScanFullIff` says exactly when a table is taken to be full.
  `HandleTable.Storage.Register` proves that a registration fails if and only if every
  handle is in use.
* `removelastlineinfo` (lcode.c:353-366) leaves `previousline` as it is when it takes an
  absolute entry away, and forces the next entry to be absolute; but every removal of a
  relative entry after that counts `iwthabs` down again. After three removals the next
  line can be wrong, and so are those after it up to the next absolute entry:
  `LineTable.ThreeRemoved`. `LineTable.FuncState.Code` states that a line is read back if
  and only if its entry is absolute or `previousline` was right, and `LineTable.Drive`
  that every run with no more than two removals in a row, and no more than one before a
  correction, is right. The callers remove one entry and emit.

## Conventions

LPeg: one instruction takes one slot, and an offset is part of its instruction. The
rule that encloses a call is found through an environment instead of a pointer to the
rule's node. The recursion of the analyses through calls has a bound `d` whose
exhaustion gives the conservative answer; every theorem holds for every `d`, and
`LpegSettle.CompileSettles` shows that the code is the same for every `d` that is deep
enough. A call
carries the identity of its node, which is what `fixedlen` marks. Look-behind bodies
have no calls and a fixed length: `lp_behind` checks the length and, with assertions
on (the build does not define NDEBUG), the calls.

Timer: a mask test `x|(m-1) == y|(m-1)` is `x / m == y / m`, and `(x >> k) & 63` is
`x / 2^k % 64`. The unbounded clock `now` and the deadlines in `log` are there for the
specification.

Mailbox: a body under a lock and an atomic operation are one step each; registering a
context and storing its handle is one step; a handle is not used again while its old
queue is alive. What a service does in its callback is left to the other threads,
which may do anything at any time.

Sockets: the answers of `write` and `read` are parameters. The 16-bit tag in `sending`
is an exact match of the socket's id. What was accepted, which part of it is lost, and
the pieces on the wire are parts of the state that no step looks at.

Handle table: `hash & (size-1)` is `%` by the size, a power of two by the invariant.
`Register` gives no handle where the table can not be doubled any more, which is a
failing assertion.

Shared data: a string stands for its index in the string table, which is one to one. A
nested table is the identity of what was made of it. Nodes start with a key where the
source leaves memory as it is.

Serial format: a table is its array part and the pairs that `lua_next` visits outside of
it; a float and a pointer are eight bytes that pass through; lengths fit an int.

Line table: line info is present, and lines are ints of any size.

Netpack: file descriptors are not negative. The queue may be read at any time between
two chunks.

Harbor: one link, with what it has written on its present connection in `wire` and the
frames it has forwarded in `got`. Frames have at least the 12 bytes that every sender
adds.

## Model

| member | source | states |
|---|---|---|
| LpegTree.EvalMonotone | skynet/3rd/lpeg/lptree.c:1247-1280 | the meaning of a pattern does not depend on the bound on recursion that found it |
| LpegTree.MeansUnique | skynet/3rd/lpeg/lptree.c:1247-1280 | a pattern has at most one result at a position |
| LpegAnalysis.NullableSound | skynet/3rd/lpeg/lpcode.c:115-149 | a pattern that can match without consuming is nullable |
| LpegAnalysis.NoFailSound | skynet/3rd/lpeg/lpcode.c:115-149 | a nofail pattern never fails |
| LpegAnalysis.FixedLenSound | skynet/3rd/lpeg/lpcode.c:155-194 | if the fixed length is n, every success consumes n |
| LpegAnalysis.FirstSound | skynet/3rd/lpeg/lpcode.c:215-293 | a match that consumes starts with a byte of the first set, and one that consumes nothing is followed by one of it when the follow set covers what follows |
| LpegAnalysis.FirstEndSound | skynet/3rd/lpeg/lpcode.c:215-293 | result 0 means failure at the end of the subject |
| LpegAnalysis.HeadFailSound | skynet/3rd/lpeg/lpcode.c:300-322 | a headfail pattern that fails does so because the next byte is not in its first set |
| LpegAnalysis.HeadFailDecides | skynet/3rd/lpeg/lpcode.c:300-322 | success of a headfail pattern is decided by the next byte, both ways |
| LpegVerify.FinishedTerminates | skynet/3rd/lpeg/lptree.c:1043-1154 | no left recursion and no empty loop: recursive matching ends on every subject |
| LpegVerify.RulesPassIff | skynet/3rd/lpeg/lptree.c:1093-1133 | the traversal that keeps the flag passes the rules in use if and only if none of them reaches itself by left calls over nullable parts |
| LpegVerify.AcceptedIff | skynet/3rd/lpeg/lptree.c:1093-1154 | of the accepted patterns, those without left recursion are exactly the ones that a check with the flag kept would accept |
| LpegVerify.AcceptedTerminates | skynet/3rd/lpeg/lptree.c:1093-1154 | a pattern that the check of the source accepts ends on every subject if no rule reaches itself by left calls |
| LpegVerify.LostFlag | skynet/3rd/lpeg/lptree.c:1129-1130 | for every closed sub-grammar that cannot match the empty string, the grammar "A <- !sub A" has no meaning where sub fails |
| LpegVerify.LostFlagExample | skynet/3rd/lpeg/lptree.c:1093-1133 | one grammar that the source accepts and that never ends |
| LpegAccept.LoopsIff | skynet/3rd/lpeg/lptree.c:1043-1060 | the check finds a loop if and only if some repetition outside of sub-grammars has a nullable body |
| LpegAccept.VerifiedExactly | skynet/3rd/lpeg/lptree.c:1093-1154 | a pattern passes with the flag kept if and only if in every grammar inside it no rule in use is left recursive or has such a repetition |
| LpegAccept.GoodAccepted | skynet/3rd/lpeg/lptree.c:1093-1154 | what passes with the flag kept also passes the check of the source |
| LpegAccept.FinishedExactly | skynet/3rd/lpeg/lptree.c:1136-1154 | so the source accepts every well-formed pattern without left recursion and empty loops |
| LpegAccept.NullableIff | skynet/3rd/lpeg/lpcode.c:115-149 | a pattern is nullable if and only if it matches the empty subject when its predicates are taken to succeed |
| LpegAccept.PlainAnalyses | skynet/3rd/lpeg/lpcode.c:115-293 | without predicates, nofail, nullable and the end mark of the first set are the same |
| LpegAccept.BuiltWell | skynet/3rd/lpeg/lptree.c:556-673 | the operators make well-formed patterns of well-formed ones |
| LpegAccept.PowersWell | skynet/3rd/lpeg/lptree.c:596-627 | and so do the powers |
| LpegAccept.PairsAccepted | skynet/3rd/lpeg/lptree.c:1043-1154 | a grammar with a repetition of a sequence is accepted |
| LpegVm.OutcomeUnique | skynet/3rd/lpeg/lpvm.c:230-400 | a run of the machine has one outcome |
| LpegCorrect.Sim | skynet/3rd/lpeg/lpcode.c:673-980 | contextual correctness of every fragment: with its follow set, its dominating test and an enclosing option, code of a tree does what the tree means |
| LpegCorrect.PlainCorrect | skynet/3rd/lpeg/lpcode.c:954-984 | code without tail calls computes the meaning of every well-formed pattern |
| LpegOpt.CompilePreserves | skynet/3rd/lpeg/lpcode.c:877-894 | tail calls change the outcome of no run |
| LpegOpt.ShortPreserves | skynet/3rd/lpeg/lpcode.c:992-1031 | one rewriting (a label moved along jumps, or a jump become the return, fail or commit it leads to) changes the outcome of no run |
| LpegOpt.PeepholePreserves | skynet/3rd/lpeg/lpcode.c:992-1031 | nor does the whole pass |
| LpegJumps.GenEnds | skynet/3rd/lpeg/lpcode.c:637-641 | every chain of jumps in generated code of a verified pattern ends |
| LpegJumps.RuleEnds | skynet/3rd/lpeg/lpcode.c:877-894 | in particular from a rule that starts with tail calls, because no rule is left recursive |
| LpegProgram.CompileStops | skynet/3rd/lpeg/lpcode.c:637-650 | so finaltarget ends on compiled programs |
| LpegProgram.PeepStops | skynet/3rd/lpeg/lpcode.c:992-1031 | and during the peephole pass |
| LpegProgram.ProgramSettled | skynet/3rd/lpeg/lpcode.c:984-1031 | in an optimised program no label leads to a jump, and no jump to an instruction that leaves at once |
| LpegProgram.ProgramCorrect | skynet/3rd/lpeg/lpcode.c:1034-1048 | compiled and optimised, every finished pattern runs to its meaning, on every subject, and to nothing else |
| LpegProgram.AcceptedCorrect | skynet/3rd/lpeg/lptree.c:1136-1154 | the same for what the source accepts and is not left recursive |
| LpegCompiler.FindTarget | skynet/3rd/lpeg/lpcode.c:637-641 | the loop finds where the jumps end |
| LpegCompiler.CompileState.CodeTestSet | skynet/3rd/lpeg/lpcode.c:610-631 | one test instruction, or none |
| LpegCompiler.CompileState.CodeChoice | skynet/3rd/lpeg/lpcode.c:673-707 | appends the specified code of a choice, its labels patched |
| LpegCompiler.CompileState.CodeAnd | skynet/3rd/lpeg/lpcode.c:716-732 | appends the specified code of an and-predicate |
| LpegCompiler.CompileState.CodeRep | skynet/3rd/lpeg/lpcode.c:817-847 | appends the specified code of a repetition |
| LpegCompiler.CompileState.CodeRepSet | skynet/3rd/lpeg/lpcode.c:779-806 | appends the tight loop or span of a charset repetition |
| LpegCompiler.CompileState.CloseLoop | skynet/3rd/lpeg/lpcode.c:766-770 | closes a loop: the test leaves it, the jump repeats it |
| LpegCompiler.CompileState.CodeNot | skynet/3rd/lpeg/lpcode.c:856-870 | appends the specified code of a not-predicate |
| LpegCompiler.CompileState.CodeSeq1 | skynet/3rd/lpeg/lpcode.c:934-947 | appends the code of the first child with the right follow set, and tells which test still holds after it |
| LpegCompiler.CompileState.ResolveCalls | skynet/3rd/lpeg/lpcode.c:877-894 | the loop closes every open call as specified, tail calls as jumps |
| LpegCompiler.CompileState.CodeGrammar | skynet/3rd/lpeg/lpcode.c:901-919 | appends the specified code of a grammar |
| LpegCompiler.CompileState.CodeGen | skynet/3rd/lpeg/lpcode.c:954-984 | appends exactly the code whose correctness is proved, for every tree |
| LpegCompiler.CompileState.Optimise | skynet/3rd/lpeg/lpcode.c:992-1031 | the loop with its redo is the pass that keeps every outcome |
| LpegCompiler.Match | skynet/3rd/lpeg/lpvm.c:230-388 | the interpreter loop gives the outcome of the machine's run |
| LpegCompiler.MatchPattern | skynet/3rd/lpeg/lptree.c:1247-1275 | compiling and matching a finished pattern gives its meaning at the initial position |
| LpegBuild.SeqOfMeans | skynet/3rd/lpeg/lptree.c:556-566 | the simplifications of a sequence keep its meaning |
| LpegBuild.ChoiceOfMeans | skynet/3rd/lpeg/lptree.c:575-590 | those of a choice too, also with its charsets united or an alternative that cannot fail |
| LpegBuild.SubOfMeans | skynet/3rd/lpeg/lptree.c:651-673 | a difference of charsets means the first pattern where the second one fails |
| LpegBuild.AtLeastIff | skynet/3rd/lpeg/lptree.c:600-609 | p^n succeeds at the places where p stops after n matches or more, and nowhere else |
| LpegBuild.AtLeastFails | skynet/3rd/lpeg/lptree.c:600-609 | and fails if and only if p stops after fewer than n |
| LpegBuild.AtMostIff | skynet/3rd/lpeg/lptree.c:610-624 | p^-n succeeds after n matches, or where p stops after fewer, and never fails |
| LpegFlat.FixedSame | skynet/3rd/lpeg/lptree.c:69-91 | turning all sequences and choices of a tree to the right keeps its meaning |
| LpegFlat.FixedRight | skynet/3rd/lpeg/lptree.c:69-91 | and no first child of a sequence or a choice is one itself |
| LpegFlat.CorrectAssociativity | skynet/3rd/lpeg/lptree.c:75-87 | the loop turns the array of a tree in place, node by node, and changes nothing around it |
| LpegFlat.FinalFix | skynet/3rd/lpeg/lptree.c:97-123 | the array becomes one of a tree that means the same and leans to the right everywhere |
| LpegFlat.Star | skynet/3rd/lpeg/lptree.c:596-627 | the array that is filled in is a tree that means p repeated: at least n times, or at most -n times |
| LpegFlat.StarFixed | skynet/3rd/lpeg/lptree.c:97-123 | and still does after the final adjustment |
| LpegFlat.Sequence | skynet/3rd/lpeg/lptree.c:556-566 | the array made for a sequence, or one of its parts, means one pattern after the other |
| LpegCharset.CharsetType | skynet/3rd/lpeg/lpcset.c:23-56 | empty, full and single sets are recognised, and only these; any other set gets its range of ones, or of zeros where that is shorter |
| LpegCharset.InstructionTests | skynet/3rd/lpeg/lpvm.c:26-32 | in the padded range after an instruction the machine finds exactly the characters of the set, also below the range, by wrapping |
| LpegCharset.DominatesIff | skynet/3rd/lpeg/lpcode.c:570-585 | the comparison of the compact forms succeeds if and only if both sets have the same characters |
| LpegCharset.AddCharset | skynet/3rd/lpeg/lpcode.c:551-564 | writes the range behind the instruction, padded with the default |
| LpegCharset.NewCharset | skynet/3rd/lpeg/lptree.c:378-406 | the tree of a set has its characters; it is the one that the operators on patterns speak of |
| LpegCharset.ToCharset | skynet/3rd/lpeg/lpcset.c:75-100 | fills a set with the characters of a tree |
| LpegCharset.RoundTrip | skynet/3rd/lpeg/lpcset.c:75-100 | a set that became a tree comes back |
| TimerWheel.ShiftSlot | skynet/skynet-src/skynet_timer.c:67-132 | a tick moves the home of a timer only if its list is the one that is spread, through all levels and the wrap |
| TimerWheel.TickHeld | skynet/skynet-src/skynet_timer.c:112-132 | after a tick every timer is at home, or in the list being spread, and in order |
| TimerWheel.PutHeld | skynet/skynet-src/skynet_timer.c:61-86 | linking a node keeps the placement and the order of the wheel |
| TimerWheel.TakeHeld | skynet/skynet-src/skynet_timer.c:152-164 | the near list of the clock is exactly the timers that are due, in the order of their addition |
| TimerWheel.NoneDue | skynet/skynet-src/skynet_timer.c:170-171 | before the tick nothing is due, so the first dispatch sends nothing |
| TimerWheel.AddHeld | skynet/skynet-src/skynet_timer.c:89-101 | adding a timer keeps the wheel |
| TimerWheel.DueIs | skynet/skynet-src/skynet_timer.c:152-164 | the timers due at a time are those with that deadline, in rising order |
| TimerWheel.Timer.FindLevel | skynet/skynet-src/skynet_timer.c:74-82 | the loop finds the first level whose block of the clock holds the expiry |
| TimerWheel.Timer.FindDigit | skynet/skynet-src/skynet_timer.c:119-130 | the loop finds the list to spread |
| TimerWheel.Timer.AddNode | skynet/skynet-src/skynet_timer.c:67-86 | the node is appended to its home list and nothing else changes |
| TimerWheel.Timer.MoveList | skynet/skynet-src/skynet_timer.c:103-110 | spreading a list puts every node at home, in order |
| TimerWheel.Timer.Shift | skynet/skynet-src/skynet_timer.c:112-132 | one tick of the clock with its cascade |
| TimerWheel.Timer.Execute | skynet/skynet-src/skynet_timer.c:152-164 | dispatches what is due and nothing else, whatever other threads add meanwhile |
| TimerWheel.Timer.Update | skynet/skynet-src/skynet_timer.c:166-180 | fires exactly the timers whose deadline is the new time, in the order of their addition |
| TimerWheel.Drive | skynet/skynet-src/skynet_timer.c:67-178 | over any run of additions and ticks: update k fires timer i if and only if its deadline is k, with one update for each tick and the deadlines of all timers that were added |
| Mailbox.NextInv | skynet/skynet-src/skynet_server.c:124-352 | every step of every thread keeps the invariant |
| Mailbox.Ownership | skynet/skynet-src/skynet_mq.c:43-75 | a queue is listed once, or held by one thread, never both; a queue with messages is listed or held; no service runs on two threads |
| Mailbox.Delivery | skynet/skynet-src/skynet_mq.c:137-250 | every message is queued, handed out or dropped, in the order of the pushes; dropped only after the release mark; none left at the free |
| Mailbox.HistoryGrows | skynet/skynet-src/skynet_server.c:297-352 | messages are handed out only by the thread that runs the service, and never taken back |
| Mailbox.FreedStays | skynet/skynet-src/skynet_mq.c:230-250 | a queue is freed once, and nothing touches it afterwards |
| Mailbox.Assertions | skynet/skynet-src/skynet_mq.c:43-56 | a queue pushed to the global list is not in it; the release mark is set once |
| Mailbox.RunsInitialised | skynet/skynet-src/skynet_server.c:260-262 | a service that runs has been initialised |
| Mailbox.Quiescent | skynet/skynet-src/skynet_server.c:207-227 | when all threads are idle no message is stranded, and every service is freed or registered with one reference |
| Mailbox.DeletedIff | skynet/skynet-src/skynet_server.c:162-168 | in any run, the context of a launcher that is about to write is deleted if and only if it is not registered and no thread has a reference |
| Mailbox.LateWrite | skynet/skynet-src/skynet_server.c:162-168 | a run in which the launcher writes to a context that is gone |
| MailboxRun.SendArrives | skynet/skynet-src/skynet_server.c:230-239 | a message that an idle thread sends to a registered service is pushed at its next step, as the last one, whatever others do between |
| MailboxRun.SendRefused | skynet/skynet-src/skynet_server.c:230-234 | a send to a service that is not registered changes nothing |
| MailboxRun.PushedAre | skynet/skynet-src/skynet_server.c:230-239 | over any run the messages pushed to a service are exactly those sent to it while it was registered, in the order of the pushes |
| MailboxRun.RunningIsLast | skynet/skynet-src/skynet_server.c:316-336 | the message that a thread runs is the last that was handed to its service |
| MailboxRun.RetireTakes | skynet/skynet-src/skynet_handle.c:75-112 | a service that is retired is not registered after the thread's next step, whatever others do |
| MailboxRun.RegisteredUntil | skynet/skynet-src/skynet_handle.c:75-112 | nothing else takes it out of the table, and it does not come back |
| MailboxRun.CallsEnd | skynet/skynet-src/skynet_server.c:207-239 | a send or a retirement ends after at most three steps of its thread |
| MailboxRun.GrabHolds | skynet/skynet-src/skynet_server.c:242-249 | a call that grabs a registered context holds one reference, and lets go of it |
| MailboxRun.LaunchWorks | skynet/skynet-src/skynet_server.c:124-172 | a launch leaves the service registered, initialised, with one reference, and listed |
| MailboxRun.LaunchFails | skynet/skynet-src/skynet_server.c:173-181 | a failed one leaves no service, and the queue is freed |
| MailboxRun.Dispatches | skynet/skynet-src/skynet_server.c:297-341 | a worker takes the first queue and hands out one message, or the part of the rest that its weight says, in order |
| MailboxRun.EndsBatch | skynet/skynet-src/skynet_server.c:341-352 | then the queue is listed again and the worker has the next one; it keeps its own when none is listed |
| MailboxRun.EmptyStops | skynet/skynet-src/skynet_server.c:317-321 | an empty queue leaves the list, and the worker is idle or deletes the service |
| MailboxRun.GoneAgain | skynet/skynet-src/skynet_mq.c:239-250 | the queue of a service that is gone is listed again until it is marked |
| MailboxRun.GoneFreed | skynet/skynet-src/skynet_mq.c:230-250 | and then all its messages are dropped and it is freed |
| MessageQueue.Queue.Length | skynet/skynet-src/skynet_mq.c:111-125 | the number of messages in the ring |
| MessageQueue.Queue.Pop | skynet/skynet-src/skynet_mq.c:137-172 | takes the oldest message; an empty queue leaves the global list; overload is reported when the length passes the limit |
| MessageQueue.Queue.Report | skynet/skynet-src/skynet_mq.c:156-159 | the limit is doubled until it allows the length, which is remembered if it was too long |
| MessageQueue.DoubledIs | skynet/skynet-src/skynet_mq.c:156-159 | that is the limit times the least power of two that allows the length |
| MessageQueue.Queue.Expand | skynet/skynet-src/skynet_mq.c:174-187 | doubles a full ring and keeps its messages in order |
| MessageQueue.Queue.Push | skynet/skynet-src/skynet_mq.c:189-209 | appends a message and lists the queue unless it is listed or held |
| MessageQueue.Queue.MarkRelease | skynet/skynet-src/skynet_mq.c:219-228 | marks the queue, which is then listed or held |
| MessageQueue.Queue.Release | skynet/skynet-src/skynet_mq.c:230-250 | drops every message of a marked queue, and lists an unmarked one |
| MessageQueue.GlobalQueue.Push | skynet/skynet-src/skynet_mq.c:43-56 | the linked list gains the queue at its end |
| MessageQueue.GlobalQueue.Pop | skynet/skynet-src/skynet_mq.c:58-75 | the linked list loses its first queue |
| SocketStream.WroteClean | skynet/skynet-src/socket_server.c:717-747 | the only write that spoils the stream is one of a new message after an unfinished one |
| SocketStream.CleanForm | skynet/skynet-src/socket_server.c:717-747 | a clean stream is whole messages and at most one unfinished prefix |
| SocketConn.AfterWriteOk | skynet/skynet-src/socket_server.c:722-742 | one write of a list head keeps the lists, the count of pending bytes, the stream and the order |
| SocketConn.AppendOrder | skynet/skynet-src/socket_server.c:1030-1071 | queueing a message keeps the order within each priority |
| SocketConn.RaiseUncomplete | skynet/skynet-src/socket_server.c:833-848 | moving a low message that was begun to the empty high list keeps all of it |
| SocketConn.AllSent | skynet/skynet-src/socket_server.c:895-898 | when both lists are empty no byte is pending |
| SocketConn.DirectOk | skynet/skynet-src/socket_server.c:1853-1886 | a direct write keeps the stream clean unless a forced close waits that has freed a message begun |
| SocketSpec.OutIs | skynet/skynet-src/socket_server.c:717-1081 | of each priority, what is out is a part of what was accepted, in order; the first messages as long as none is lost; and all of them at the end exactly if none is |
| SocketSpec.GentleStep | skynet/skynet-src/socket_server.c:1148-1180 | without shutdown, hang-up and failures a message is lost only, and always, by a close that catches a direct write half way |
| SocketRun.EventsAre | skynet/skynet-src/socket_server.c:1148-1581 | over any run DATA is raised exactly when data comes before a CLOSE, OPEN exactly when the connection is made or started, and a CLOSE is raised, or owed, exactly when the read side ends |
| SocketOut.TakenAre | skynet/skynet-src/socket_server.c:1012-1081 | over any run the messages accepted are those of the commands on a socket that takes them and of the direct writes, in order, and the commands leave the pipe as they came |
| SocketOut.WriteAll | skynet/skynet-src/socket_server.c:862-950 | a write event whose kernel takes every byte leaves nothing, puts all on the wire in order, and lets a close go on |
| SocketOut.WriteKeeps | skynet/skynet-src/socket_server.c:717-950 | whatever the kernel takes, what is on the wire and what waits stay the same together |
| SocketOut.WriteFails | skynet/skynet-src/socket_server.c:694-747 | a write that fails half closes a connection once, with an error; one that is half read or closing ends without an event |
| SocketOut.DirectOut | skynet/skynet-src/socket_server.c:1855-1875 | a direct write puts the first bytes of its message on the wire, as many as the kernel takes |
| SocketOut.EndingIs | skynet/skynet-src/socket_server.c:481-512 | exactly which events end a connection, and that it ends when the lock is free |
| SocketOut.ErrorsAre | skynet/skynet-src/socket_server.c:1199-1236 | errors of the poll and of reads are raised at once; a start connects; a trigger asks for the write event |
| SocketOut.SendersAre | skynet/skynet-src/socket_server.c:1833-1886 | a sender gets the lock exactly when nothing is before its message, and leaves what the kernel did not take in front of the lists |
| SocketOut.FlagsAre | skynet/skynet-src/socket_server.c:1012-1081 | the write event is enabled while something waits in the lists, and a half read connection is not read |
| SocketServer.Socket.SendList | skynet/skynet-src/socket_server.c:717-747 | the loop over a list, for any answers of the kernel: its whole new state is that of a recursion over the answers |
| SocketServer.Socket.SendLists | skynet/skynet-src/socket_server.c:863-922 | high, then low, then the raise, then the close that waited; the asserted conditions hold |
| SocketServer.Socket.Writable | skynet/skynet-src/socket_server.c:924-950 | the write event, after what a direct write has left; nothing while a sender has the lock |
| SocketServer.Socket.CloseWrite | skynet/skynet-src/socket_server.c:694-715 | a failed write half closes the socket once, or closes it |
| SocketServer.Socket.SendSocket | skynet/skynet-src/socket_server.c:1011-1081 | queues a message by priority, or drops it on exactly the states that refuse it |
| SocketServer.Socket.CloseSocket | skynet/skynet-src/socket_server.c:1148-1180 | the local close, at once or after the data |
| SocketServer.Socket.Command | skynet/skynet-src/socket_server.c:1364-1404 | a command of the pipe; the count of senders is never below zero |
| SocketServer.Socket.Readable | skynet/skynet-src/socket_server.c:1426-1486 | data, end of file and read errors, in every half-close state, as the specification of the run theorems says |
| SocketServer.Socket.HangUp | skynet/skynet-src/socket_server.c:1772-1781 | the hang-up event raises CLOSE unless it has been raised |
| SocketServer.Socket.ReportConnect | skynet/skynet-src/socket_server.c:1547-1581 | the end of a connection attempt, also when the write event cannot be switched off |
| SocketServer.Socket.Resume | skynet/skynet-src/socket_server.c:1199-1236 | starting an accepted socket; a closing one is refused |
| SocketServer.Socket.BeginForceClose | skynet/skynet-src/socket_server.c:482-495 | the lists are freed before the lock is taken |
| SocketServer.Socket.FinishForceClose | skynet/skynet-src/socket_server.c:495-512 | then the socket becomes invalid and its event is raised |
| SocketServer.Socket.TryDirect | skynet/skynet-src/socket_server.c:1833-1851 | the first check of a direct write |
| SocketServer.Socket.CheckAgain | skynet/skynet-src/socket_server.c:1852-1853 | the second check, with the lock, accepts the message |
| SocketServer.Socket.DirectWrite | skynet/skynet-src/socket_server.c:1855-1875 | the stream stays clean if and only if no torn message precedes |
| SocketServer.Socket.DirectFinish | skynet/skynet-src/socket_server.c:1876-1886 | what is left waits in the buffer of direct writes |
| SocketServer.Do | skynet/skynet-src/socket_server.c:1671-1784 | every event makes of the connection what the specification says, keeps the invariant, and the stream unless it is the one bad write |
| SocketServer.Drive | skynet/skynet-src/socket_server.c:717-1909 | over any run, state by state: the stream, the order, what is lost, the byte count, which events are raised and which messages accepted, and CLOSE at most once with no data after it |
| SocketServer.TornMessage | skynet/skynet-src/socket_server.c:481-512 | a run that breaks the stream |
| SocketServer.CaughtMessage | skynet/skynet-src/socket_server.c:1148-1180 | a run in which a close that is no shutdown loses a message |
| LpegSettle.CompileSettles | skynet/3rd/lpeg/lpcode.c:115-322 | from some depth on the bound on the analyses through calls changes nothing in the code of a checked pattern, so the code is that of the unbounded analyses |
| LpegSettle.GenSettles | skynet/3rd/lpeg/lpcode.c:673-980 | the same for the code of every fragment |
| LpegSettle.CheckSettles | skynet/3rd/lpeg/lpcode.c:115-149 | nullable and nofail do not depend on the bound when it is deep enough |
| LpegSettle.FirstSettles | skynet/3rd/lpeg/lpcode.c:215-293 | nor does the first set |
| LpegSettle.HeadSettles | skynet/3rd/lpeg/lpcode.c:300-322 | nor does headfail |
| Rwlock.NextInv | skynet/skynet-src/rwlock.h:19-46 | every atomic step of every thread keeps the invariant: `read` counts the readers between increment and decrement |
| Rwlock.Exclusion | skynet/skynet-src/rwlock.h:19-46 | over any run, a writer inside excludes all other writers and all readers |
| Rwlock.FreeAgain | skynet/skynet-src/rwlock.h:38-46 | when every thread is outside, both counters are zero |
| Rwlock.ReaderEnters | skynet/skynet-src/rwlock.h:19-29 | a reader alone gets in at its first try if and only if no writer has made the exchange |
| Rwlock.WriterEnters | skynet/skynet-src/rwlock.h:31-35 | a writer alone gets in if and only if there is no writer and no reader is counted |
| Rwlock.Leaves | skynet/skynet-src/rwlock.h:37-46 | the unlocks free what the locks took |
| Rwlock.GivesUp | skynet/skynet-src/rwlock.h:23-25 | a reader that meets a writer takes its count back and tries again |
| PowModP.MulModP | skynet/lualib-src/lua-crypt.c:795-815 | the loop over the bits gives the product modulo P of a reduced first factor, in arithmetic that wraps |
| PowModP.PowModPRec | skynet/lualib-src/lua-crypt.c:817-828 | the recursion gives the power modulo P |
| PowModP.PowModulo | skynet/lualib-src/lua-crypt.c:830-836 | the power modulo P, if and only if not base P with exponent 1 |
| PowModP.Exchange | skynet/lualib-src/lua-crypt.c:870-888 | the public value of a secret exponent; zero is refused |
| PowModP.Secret | skynet/lualib-src/lua-crypt.c:853-866 | the common secret; zero is refused |
| PowModP.KeyExchange | skynet/lualib-src/lua-crypt.c:853-888 | for all exponents other than zero both sides get the same secret, which is not zero |
| PowModP.PowerUnit | skynet/lualib-src/lua-crypt.c:853-888 | no power of the generator is zero modulo P |
| LineTable.FuncState.SaveLineInfo | skynet/3rd/lua/lcode.c:329-346 | the table records the line of the new instruction, relative or absolute; a relative entry is off by as much as `previousline` was, and leaves it so |
| LineTable.FuncState.RemoveLastLineInfo | skynet/3rd/lua/lcode.c:353-366 | the table loses the line of the last instruction; after an absolute entry `previousline` is off by the step to that line |
| LineTable.FuncState.Code | skynet/3rd/lua/lcode.c:382-390 | an emit appends a line, which is the one that was meant if and only if the entry is absolute or `previousline` was right |
| LineTable.FuncState.FixLine | skynet/3rd/lua/lcode.c:1783-1786 | a correction replaces the last line, and exactly when it is the one that was meant |
| LineTable.FuncState.RemoveLastInstruction | skynet/3rd/lua/lcode.c:372-375 | removes the last instruction and its line |
| LineTable.FuncState.GetBaseLine | skynet/3rd/lua/ldebug.c:60-76 | an entry at or before the instruction, with its line; the estimate is a lower bound |
| LineTable.FuncState.GetFuncLine | skynet/3rd/lua/ldebug.c:83-95 | the line recorded for the instruction |
| LineTable.FuncState.ChangedLine | skynet/3rd/lua/ldebug.c:847-865 | exactly whether the two lines differ |
| LineTable.DenseBound | skynet/3rd/lua/ldebug.c:48-59 | absolute entries come at least once every MAXIWTHABS instructions |
| LineTable.DenseMany | skynet/3rd/lua/ldebug.c:48-59 | so there are as many as the division says |
| LineTable.Estimate | skynet/3rd/lua/ldebug.c:65-70 | the division estimate is a valid lower bound |
| LineTable.Drive | skynet/3rd/lua/lcode.c:329-390 | every run of emits, corrections and removals, with at most two removals in a row and one before a correction, leaves a table of exactly the lines that were meant |
| LineTable.EmitAll | skynet/3rd/lua/lcode.c:329-346 | without removals an entry is absolute exactly when its difference does not fit or the last absolute one is 128 instructions back |
| LineTable.ThreeRemoved | skynet/3rd/lua/lcode.c:353-366 | a run of three removals after which a wrong line is read |
| HandleTable.Storage.Grab | skynet/skynet-src/skynet_handle.c:138-155 | the context of a live handle and nothing for a stale one |
| HandleTable.Storage.Double | skynet/skynet-src/skynet_handle.c:60-70 | doubling keeps the map; no two handles collide |
| HandleTable.Storage.Register | skynet/skynet-src/skynet_handle.c:34-73 | gives the first handle after the last one given whose residue no handle in use has, also when the table is doubled; none if and only if all are in use; the table is doubled, once, exactly when the scan finds no free slot |
| HandleTable.ScanFullIff | skynet/skynet-src/skynet_handle.c:42-58 | the scan finds no free slot if and only if all are taken, but for the first one when the handles wrap |
| HandleTable.Roomy | skynet/skynet-src/skynet_handle.c:59-71 | in a table that was doubled it finds one |
| HandleTable.Storage.Retire | skynet/skynet-src/skynet_handle.c:75-112 | removes exactly that handle and its names |
| HandleTable.Storage.RemoveNames | skynet/skynet-src/skynet_handle.c:86-97 | compacts the names in place, in order |
| HandleTable.Storage.Search | skynet/skynet-src/skynet_handle.c:165-180 | the binary search finds the name, or the place where it belongs |
| HandleTable.Storage.FindName | skynet/skynet-src/skynet_handle.c:157-185 | equals lookup in the map of names |
| HandleTable.Storage.InsertBefore | skynet/skynet-src/skynet_handle.c:187-211 | inserts at a place, shifting or growing the array |
| HandleTable.Storage.NameHandle | skynet/skynet-src/skynet_handle.c:213-246 | adds a name, unless it is taken; the names stay sorted |
| HandleTable.DoubleSlots | skynet/skynet-src/skynet_handle.c:60-70 | the slots of the doubled table hold the same map |
| HandleTable.CopyNext | skynet/skynet-src/skynet_handle.c:64-68 | the slot that a handle moves to is free: residues that differ modulo n differ modulo 2n |
| HandleTable.CompareTrans | skynet/skynet-src/skynet_handle.c:218-230 | the order of names is transitive |
| ShareData.CountSize | skynet/lualib-src/lua-sharedata.c:67-89 | the number of keys outside of the array part; a key of another type is refused |
| ShareData.Table.FillFirst | skynet/lualib-src/lua-sharedata.c:212-235 | the first pass: array part, and the first key of each main position |
| ShareData.Table.FindEmpty | skynet/lualib-src/lua-sharedata.c:255-262 | the scan finds a free slot: the assertion holds |
| ShareData.Table.PlaceChained | skynet/lualib-src/lua-sharedata.c:263-269 | links the slot second in the chain of its main position |
| ShareData.Table.FillLater | skynet/lualib-src/lua-sharedata.c:237-273 | the second pass: every key has a node |
| ShareData.FreeSlot | skynet/lualib-src/lua-sharedata.c:255-262 | while a key has no node there is a free slot |
| ShareData.LaterShaped | skynet/lualib-src/lua-sharedata.c:263-269 | the chains stay disjoint, acyclic and complete |
| ShareData.NotPlaced | skynet/lualib-src/lua-sharedata.c:251-253 | a key that is not at its main position has no node yet |
| ShareData.Convert | skynet/lualib-src/lua-sharedata.c:277-327 | builds the index; it is exactly full if and only if the keys are kept apart |
| ShareData.NodesCountedIff | skynet/lualib-src/lua-sharedata.c:67-89 | as many nodes are needed as were counted if and only if no counted key is cut to one of the array part |
| ShareData.SeparateIff | skynet/lualib-src/lua-sharedata.c:191-210 | keys are kept apart if and only if none falls and the counted ones stay different |
| ShareData.FullIff | skynet/lualib-src/lua-sharedata.c:277-327 | a finished index has a different key in every node, and every key, if and only if the keys were kept apart |
| ShareData.NarrowSeparate | skynet/lualib-src/lua-sharedata.c:191-210 | 32-bit integers and strings are kept apart |
| ShareData.Table.Lookup | skynet/lualib-src/lua-sharedata.c:503-532 | ends, and finds the node of a key if and only if there is one |
| ShareData.Table.IndexConf | skynet/lualib-src/lua-sharedata.c:534-568 | nil if no entry has that key in the index, otherwise the value of one that has |
| ShareData.ReadRight | skynet/lualib-src/lua-sharedata.c:534-568 | a reading equals that of the table, except exactly for a wider integer whose low half is a key |
| ShareData.WideHole | skynet/lualib-src/lua-sharedata.c:67-89 | a wide key that is counted and gets no node |
| ShareData.Table.NextKey | skynet/lualib-src/lua-sharedata.c:591-648 | the key after a given one in the order of the traversal |
| ShareData.KeysExactly | skynet/lualib-src/lua-sharedata.c:591-648 | that order has every key of the table, and none twice |
| ShareData.Table.Traverse | skynet/lualib-src/lua-sharedata.c:591-648 | going from key to key visits every key exactly once |
| SeriFormat.IntBody | skynet/lualib-src/lua-seri.c:142-174 | an integer comes back from the width that is chosen for it |
| SeriFormat.StringRound | skynet/lualib-src/lua-seri.c:190-213 | a string comes back, short or long |
| SeriFormat.SizeBody | skynet/lualib-src/lua-seri.c:217-226 | the size of an array part comes back, also from 31 on |
| SeriFormat.RoundTrip | skynet/lualib-src/lua-seri.c:303-542 | what was written for a value is read back as that value, whatever follows |
| SeriFormat.RoundTripAll | skynet/lualib-src/lua-seri.c:565-622 | the same for a list of values |
| SeriLayout.IntIs | skynet/lualib-src/lua-seri.c:142-174 | the bytes of an integer: tag, width, two's complement with the lowest byte first, the shortest width that holds it |
| SeriLayout.IntShortest | skynet/lualib-src/lua-seri.c:142-174 | no shorter bytes are read as the same integer |
| SeriLayout.StrIs | skynet/lualib-src/lua-seri.c:190-213 | the bytes of a string: its length in the tag, in two bytes or in four |
| SeriLayout.StrShortest | skynet/lualib-src/lua-seri.c:190-213 | no shorter bytes are read as the same string |
| SeriLayout.Layout | skynet/lualib-src/lua-seri.c:119-257 | the first byte and the body of every kind of value |
| SeriLayout.TableItems | skynet/lualib-src/lua-seri.c:215-257 | a table is its length, the array part, each key with its value, and nil |
| SeriLayout.ReadableIff | skynet/lualib-src/lua-seri.c:360-531 | a value that is no table is refused if and only if its tag does not exist or bytes of it are missing |
| SeriLayout.IntRead | skynet/lualib-src/lua-seri.c:369-410 | the number that the bytes of an integer say, the lowest first and with a sign from four bytes on |
| SeriCodec.WriteBlock.Push | skynet/lualib-src/lua-seri.c:65-85 | appends to one sequence of bytes, whatever the blocks |
| SeriCodec.WriteBlock.WriteInteger | skynet/lualib-src/lua-seri.c:142-174 | appends the format's bytes of an integer |
| SeriCodec.WriteBlock.WriteString | skynet/lualib-src/lua-seri.c:190-213 | and of a string |
| SeriCodec.WriteBlock.PackOne | skynet/lualib-src/lua-seri.c:303-350 | and of any value, with the error exactly when something in it is too deep |
| SeriCodec.WriteBlock.PackArray | skynet/lualib-src/lua-seri.c:217-235 | the array part |
| SeriCodec.WriteBlock.PackHash | skynet/lualib-src/lua-seri.c:237-257 | the pairs and the nil that ends them |
| SeriCodec.WriteBlock.Join | skynet/lualib-src/lua-seri.c:544-563 | copies the chain of blocks to one buffer |
| SeriCodec.FitsIff | skynet/lualib-src/lua-seri.c:303-307 | the check on the way down passes if and only if no value is inside more than 32 tables |
| SeriCodec.ReadBlock.GetInteger | skynet/lualib-src/lua-seri.c:369-410 | reads what the format says, for any bytes |
| SeriCodec.ReadBlock.UnpackTable | skynet/lualib-src/lua-seri.c:444-475 | the same for a table |
| SeriCodec.ReadBlock.PushValue | skynet/lualib-src/lua-seri.c:477-531 | and for any value |
| SeriCodec.Pack | skynet/lualib-src/lua-seri.c:609-622 | the bytes of all values, or the error if and only if one of them is too deep |
| SeriCodec.Unpack | skynet/lualib-src/lua-seri.c:565-607 | the values of a whole buffer, or the error |
| SeriCodec.Transfer | skynet/lualib-src/lua-seri.c:565-622 | unpacking what was packed gives the values back |
| Netpack.ParseSplit | skynet/lualib-src/lua-netpack.c:228-308 | parsing may stop anywhere and go on with what is left |
| Netpack.PackRoundTrip | skynet/lualib-src/lua-netpack.c:440-456 | packed messages come back, in order |
| Netpack.PackBytes | skynet/lualib-src/lua-netpack.c:440-456 | a package is its size in two bytes, the higher one first, and the data; larger data is refused |
| Netpack.FrameIs | skynet/lualib-src/lua-netpack.c:183-216 | and is read like that |
| Netpack.Queue.FindUncomplete | skynet/lualib-src/lua-netpack.c:93-115 | takes the unfinished package of a connection out of its chain |
| Netpack.Queue.SaveUncomplete | skynet/lualib-src/lua-netpack.c:170-181 | links one |
| Netpack.Queue.ExpandQueue | skynet/lualib-src/lua-netpack.c:134-149 | a larger ring with the same packages in order |
| Netpack.Queue.PushData | skynet/lualib-src/lua-netpack.c:151-168 | appends a package |
| Netpack.Queue.PushMore | skynet/lualib-src/lua-netpack.c:189-216 | appends all packages of a buffer and keeps what is left |
| Netpack.Queue.FilterData | skynet/lualib-src/lua-netpack.c:228-308 | a chunk adds exactly the packages that it completes, returns the one that is alone, and leaves other connections alone |
| Netpack.Queue.Pop | skynet/lualib-src/lua-netpack.c:400-414 | takes the oldest package |
| Netpack.Drive | skynet/lualib-src/lua-netpack.c:134-308 | for any chunks of any connections and any reads of the queue between them, what was handed out and what waits is what the specification says |
| Netpack.NoneLost | skynet/lualib-src/lua-netpack.c:228-308 | what was handed out and what waits for a connection are together the packages of its whole stream |
| Netpack.PlacesRight | skynet/lualib-src/lua-netpack.c:228-308 | in every run, what was handed out and what waits are the packages of the stream with the numbers that the fold over the events gives, each of them once |
| Netpack.InOrder | skynet/lualib-src/lua-netpack.c:228-308 | the packages of a connection come out in the order of its stream if and only if none is returned at once while another waits |
| Netpack.Overtaken | skynet/lualib-src/lua-netpack.c:228-308 | a run in which a package is returned at once while two others wait |
| Gate.ParseSplit | skynet/service-src/service_gate.c:194-214 | parsing may stop anywhere and go on, unless a frame was too long |
| Gate.PackedBack | skynet/service-src/databuffer.h:125-144 | framed messages of at least one byte come back, in order |
| Gate.FrameIs | skynet/service-src/databuffer.h:125-144 | a header of two or four bytes, the highest first, waits for its frame; from 16M on it is an error |
| Gate.Unreceived | skynet/service-src/service_gate.c:168-191 | without a receiver a stream is read word by word, up to the first word that does not pass as a header |
| Gate.NothingLostIff | skynet/service-src/service_gate.c:168-191 | parsing without a receiver is the same if and only if no frame is reached |
| Gate.InStepIff | skynet/service-src/service_gate.c:168-191 | it ends at the same place if and only if all that was read passes as headers |
| Gate.OutOfStep | skynet/service-src/service_gate.c:168-191 | one such stream that goes out of step |
| Gate.DataBuffer.Read | skynet/service-src/databuffer.h:64-89 | takes bytes off the front across chunks, returning used nodes to the pool |
| Gate.DataBuffer.Push | skynet/service-src/databuffer.h:91-123 | appends a chunk, with a node of the pool |
| Gate.DataBuffer.ReadHeader | skynet/service-src/databuffer.h:125-144 | the size of the next frame when all of it is there |
| Gate.Connection.Forward | skynet/service-src/service_gate.c:168-191 | the frame leaves the buffer if and only if there is a receiver |
| Gate.Connection.Dispatch | skynet/service-src/service_gate.c:194-214 | a chunk adds exactly the frames that it completes, or closes the connection |
| Gate.Drive | skynet/service-src/service_gate.c:194-214 | for any chunks, each with or without a receiver, the frames and what is left are those of the fold over the chunks |
| Gate.ReadAll | skynet/service-src/service_gate.c:194-214 | and those of the whole stream, if no frame is completed while there is no receiver |
| Harbor.Delivered | skynet/service-src/service_harbor.c:312-330 | the peer delivers what was sent, to the destination that was meant |
| Harbor.OneWire | skynet/service-src/service_harbor.c:332-352 | a message on the wire is one frame, or closes the link exactly when it is 16M or longer with its header |
| Harbor.WireBytes | skynet/service-src/service_harbor.c:332-352 | the bytes of a message: length, data, source, destination and session, each of four bytes with the highest first |
| Harbor.FrameIs | skynet/service-src/service_harbor.c:419-510 | and is read like that; from 16M on it is an error |
| Harbor.ParseSplit | skynet/service-src/service_harbor.c:419-510 | parsing may stop anywhere and go on, unless a length was too long |
| Harbor.WiresBack | skynet/service-src/service_harbor.c:332-352 | messages on the wire come out whole and in order |
| Harbor.MessageQueue.Push | skynet/service-src/service_harbor.c:91-110 | appends to the ring, which doubles when one slot is left |
| Harbor.MessageQueue.Pop | skynet/service-src/service_harbor.c:121-129 | takes the oldest message |
| Harbor.Link.SendHandle | skynet/service-src/service_harbor.c:526-563 | written, queued or dropped by the state of the link; nothing gets ahead |
| Harbor.Link.DispatchQueue | skynet/service-src/service_harbor.c:399-416 | what waits goes out in order |
| Harbor.Link.Connect | skynet/service-src/service_harbor.c:618-644 | a new connection, refused while there is one |
| Harbor.Link.PushSocketData | skynet/service-src/service_harbor.c:419-510 | a chunk forwards exactly the frames that it completes; a wrong number or a long length closes the link, and what had come of that length stays |
| Harbor.StaleIff | skynet/service-src/service_harbor.c:230-242 | a link that is connected again works if and only if nothing of a bad length is left |
| Harbor.BadLength | skynet/service-src/service_harbor.c:419-510 | a run that closes a link with a byte left |
| Harbor.NothingThrough | skynet/service-src/service_harbor.c:230-242 | for any such link, whatever comes on its next connection, nothing is forwarded |
| Harbor.StaleRun | skynet/service-src/service_harbor.c:230-242 | the two together |
| Harbor.Receive | skynet/service-src/service_harbor.c:419-510 | for any cut of a connection's bytes the frames are those of the whole |
| Harbor.Carry | skynet/service-src/service_harbor.c:399-563 | messages sent before and after the connection arrive once each and in order |

## Left out

* How fast the code of a pattern is: the theorems say that it is right and that its labels are final. Which tests and shortcuts it takes follows the analyses, which are right but may be cautious where predicates or left parts of a choice hide something.
* LPeg captures, match-time captures, UTF-8 ranges, substitution of back references, the limit on the stack, and the layout of an instruction in several slots.
* LPeg: in trees and code a charset is a set of bytes and takes one place; its compact form is in `LpegCharset`, with the sets proved equal. The check of a loop body in `lp_star`, which is made again before a pattern is compiled.
* The bounds of code accesses in `peephole`: the model's passes are total functions.
* `skynet_context_dispatchall` and the reserved context of the harbor service, which empty a queue that no worker holds at shutdown.
* Liveness: that a listed queue is served in the end, or that a waiting forced close gets its lock.
* UDP, user-object buffers, warnings about large buffers, and statistics of sockets; listening sockets.
* The tag of `sending` that makes a count for an earlier socket of the same slot harmless.
* A table's `__pairs` in the serial format, values of other types (an error), freeing of the blocks, and lengths of 2^31 or more in a stream that the packer did not write.
* Shared data: interning of strings, nested tables and their deletion, the dirty flag and reference counts.
* Stripped line info (a function without `lineinfo`).
* Netpack's `clear` and `tostring`; a gate's table of connections (`hashid`) and its commands; the harbor's queues under names that are not resolved yet, and the forwarding of a frame shorter than a header.
* Failing allocation and shutdown.
* Everything else in the repository: the Lua interpreter, hashes and ciphers, base64, BSON, the socket buffer of Lua, cluster messages, and the services in Lua.
