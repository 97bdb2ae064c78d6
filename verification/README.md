# DRM ID kernel virtualizer: a verified model

The virtualizer hooks the kernel's `binder_ioctl`. When the Widevine HAL is asked for `deviceUniqueId`, the hook
remembers the request; when the HAL's reply leaves, the hook matches it to the request and overwrites 32 bytes of it
with a virtual id. A user-space daemon installs the hook, publishes the configuration and the HAL's process ids to it,
and a web interface changes the configuration. This project models the algorithms that the emitted kernel code and the
daemon carry out, and proves what they keep and what they promise.

`dafny verify dfyconfig.toml` checks the whole project.

| file | what it models |
|---|---|
| `PendingTable`, `PendingRuns`, `PendingRefinement`, `PendingArea` | the pending table: 256 slots, eight ways, stacks of four frames; its meaning, its runs, its refinement of an unbounded map, and the push and pop in place |
| `TryLock`, `LockAttempts` | the handlers of many tasks, one memory access at a time, around the bounded try-lock, and how often they try |
| `UserBytes`, `StreamWalker`, `ReplyRewrite`, `CommandStream` | the Binder command stream: its framing, what dispatching its commands does to counters and user memory, correlated replies rewritten included, and the walk in place |
| `ParcelMatcher`, `ParcelWriter` | recognition of a `deviceUniqueId` request in a captured parcel prefix, and the parcels that clients write, byte by byte |
| `EndToEnd` | matcher, pending table and rewrite behind each other: which replies are rewritten, over runs of all threads' commands |
| `DoubleSlot` | publication through two slots and an index while hooked threads read |
| `HalMonitor` | the daemon's HAL monitor and server loop |
| `GenerationProtocol` | status, persist, apply and restart between web interface, control file, daemon and kernel |
| `Sha256`, `Sha256Example`, `Hkdf`, `Bytes` | streaming SHA-256 with the example of its self-test, HMAC and HKDF |
| `Crc32`, `ControlRecord`, `RuntimeControl` | the bitwise CRC-32, the control record, and its writer, reader and migration |
| `StartupReadiness` | the stability window with its deadline |
| `EntryClassifier` | classification of the hook entry's AArch64 words |
| `Wrappers`, `Numbers` | `Option`, and a minimum, a word size and a count of one |

Faults, short transfers, spurious exclusive-store failures, discovery results, poll results and the outcome of kernel
writes are inputs over which everything is proved. Code that updates state in place is modelled by methods, each proved
against a specification function or relation; what the source promises is proved about those. A conjunct list of each
invariant is in the predicates `TableOk`, `RunOk`, `Conserved`, `Inv`, `WalkOk`, `Safe`, `Mirrors` and `Invariant`.

Some promises turn out to hold only under a condition. The first four are stated with the exact one:

- The hook reads a command stream by its framing, unless a correlated reply of the stream names a buffer in the stream
  itself: the rewrite then replaces commands that are still to be read.
  `CommandStream.StreamParser.ParseCommandStream` shows that the commands dispatched are the framed ones if and only if
  dispatching the framed commands would leave what is still to be read as it is (`StaysIntact`), which it does when no
  framed reply names a buffer there (`RepliesElsewhere`); `CommandStream.OwnStreamIsRewritten` gives the streams that
  fail.
- A reply gets the id of its own request. The hook pops for every reply but pushes only flagged requests, so this needs
  the requests and replies of the task in between to pair up. `PendingRefinement.ReplyYieldsItsRequest` shows that a
  reply yields the id of a request if and only if they do (`Matches`), and `UntrackedReplyTakesTheFrame` gives the runs
  that fail.
- The web interface numbers a new configuration one above the generation it read in the status. If the daemon restarts
  between the status and the write and thereby activates a pending file, the same number is written again.
  `GenerationProtocol.StepKeeps` shows that the invariant is kept if and only if the step is not such a write
  (`Overwrites`), and `RestartBetweenStatusAndWrite` gives the run.
- A publication of newly found HAL processes whose flip takes effect but is reported as failed leaves the kernel one
  generation ahead of the monitor, which then can never publish again. `HalMonitor.IterateKeeps` shows that the mirror
  is kept if and only if a turn is not that (`Ambiguous`), `AmbiguityIsReachable` that it can happen, and
  `StaysAdrift` what follows.
- A reader of a slot reads one published content as long as it reads no cell after a write to its slot, and always while
  at most one publication overlaps it. Both are sufficient; a reader that two publications overlap may be lucky, and
  `DoubleSlot.TwoPublicationsTear` shows that it need not be.

Where the code and its comments differ, the model follows the code: the branch decoder masks out the link bit, so a
branch with link decodes too (binder_ioctl_resolver.cpp:404-406); the frame-link check leaves bits 26 and 30 open, so a
vector register pair passes as the frame link (binder_ioctl_resolver.cpp:327-340); the allowed processor ticks wrap
instead of saturating (startup_readiness.cpp:227-232); a stale pop is not counted as a pop
(binder_hook_builder.cpp:482-499).

The numbers of the Binder commands are those of the Linux uapi header binder.h, which is not part of this model.

## Model

| member | source | states |
|---|---|---|
| PendingTable.PushMeaning | binder_hook_builder.cpp:287-438 | a push puts its frame on top of the stack its task holds under the same pid and tgid, or is refused when that is four frames; besides its own task it touches only the one it evicts, and the table invariant (one slot a task, in its bucket, depth 1 to 4, ids rising upwards) is kept |
| PendingTable.PlaceMeaning | binder_hook_builder.cpp:306-389 | the slot a push takes is its own, else a free one, else the slot of the eight whose top event id is the least; a collision is counted exactly when frames are thrown away |
| PendingTable.EvictsTheOldest | binder_hook_builder.cpp:340-382 | a task that is thrown out has waited longest: the newest request of every other task with the same eight slots is at least as new as its newest one |
| PendingTable.LinesAreDisjoint | binder_hook_builder.cpp:305-308 | two tasks have the same eight slots when their pointers agree in bits 6 to 10, and otherwise none in common |
| PendingTable.PopMeaning | binder_hook_builder.cpp:440-522 | a pop removes the newest frame of its task pointer and yields its id exactly when the frame carries the current HAL generation; no other task notices |
| PendingTable.ExamineWayCorrect | binder_hook_builder.cpp:320-365 | one way of the unrolled single pass keeps what its registers mean, and a slot it settles on is the one that three separate searches find |
| PendingTable.SettleCorrect | binder_hook_builder.cpp:366-382 | after eight ways the free slot, or else the least recently used one, is the one those searches find |
| PendingTable.SlotUpdate | kernel_context.h:92-99 | replacing one slot changes what the table holds for its old and its new owner and for nobody else |
| PendingRuns.EveryRun | binder_hook_builder.cpp:287-544 | on every run, lock drops, overflow, eviction, pointer reuse and generation changes included: each frame was pushed by its task and not yet yielded; each yield is the id of an earlier request of the same task pointer under the same generation, and no id is yielded twice |
| PendingRuns.EveryRunConserves | binder_hook_builder.cpp:1098-1230 | the conservation laws of the counters hold after every run |
| PendingRuns.RequestConserves | binder_hook_builder.cpp:1208-1230 | one request keeps the conservation laws |
| PendingRuns.ReplyConserves | binder_hook_builder.cpp:1098-1107 | one reply keeps the conservation laws |
| PendingRuns.PushDepth | binder_hook_builder.cpp:287-438 | a push adds one live frame and, on a collision, throws away one to four |
| PendingRuns.PopDepth | binder_hook_builder.cpp:440-522 | a pop that finds a frame removes exactly one |
| PendingRuns.YieldSound | binder_hook_builder.cpp:467-499 | the id a reply yields is that of a request of its own task pointer, read under the same generation, and new |
| PendingRefinement.TableRefinesMap | binder_hook_builder.cpp:287-522 | when no lock is dropped, no bucket is full of others, nesting is at most four, pids stay with their tasks and the generation is unchanged, the table is an unbounded map from task to stack and each reply yields what the map would; nothing is evicted, refused, dropped or found stale, and the full bucket is stated by the pointers of the tasks, eight that agree in bits 6 to 10 |
| PendingRefinement.NothingIsLostExactlyWhen | binder_hook_builder.cpp:287-522 | over every run nothing is evicted, refused, dropped or found stale if and only if every call is benign: the lock is taken, a task nests at most four under one pid and tgid, one without frames finds fewer than eight waiting tasks whose pointers agree with its own in bits 6 to 10, and the generation is that of the top frame |
| PendingRefinement.EightToALineAreHeld | binder_hook_builder.cpp:305-389 | any number of tasks with one outstanding request each are all held, without a loss, as long as no more than eight of their pointers agree in bits 6 to 10 |
| PendingRefinement.ReplyYieldsItsRequest | binder_hook_builder.cpp:287-522 | in such a run a reply yields the event id of a tracked request if and only if it is the reply to it: of the same task, with that task's requests and replies in between paired up |
| PendingRefinement.UntrackedReplyTakesTheFrame | binder_hook_builder.cpp:1098-1107 | why calls must pair up: a task sends a tracked request and, nested in it, one that is not flagged; the reply to the nested one yields the id of the outer request, and the reply to the outer request does not |
| PendingRefinement.BracketsKeepStack | binder_hook_builder.cpp:287-522 | between a request and its reply, well bracketed calls leave the frames beneath untouched |
| PendingRefinement.RequestRefines | binder_hook_builder.cpp:287-438 | one benign request does to the table what it does to the map |
| PendingRefinement.ReplyRefines | binder_hook_builder.cpp:440-522 | one benign reply does to the table what it does to the map, and yields the same |
| PendingArea.Area.constructor | binder_hook_builder.cpp:1649-1684 | an area begins with all slots empty and all counters zero |
| PendingArea.Area.FindPlace | binder_hook_builder.cpp:306-382 | the pass over the bucket in place returns the slot of the specification |
| PendingArea.Area.Claim | binder_hook_builder.cpp:382-389 | the four stores of a claim give the claimed slot and leave all others |
| PendingArea.Area.StoreFrame | binder_hook_builder.cpp:396-417 | the frame is stored at the top and then counted |
| PendingArea.Area.Push | binder_hook_builder.cpp:287-438 | the push in place: slots and counters become those of the specification, and stay valid |
| PendingArea.Area.PushLocked | binder_hook_builder.cpp:306-430 | its critical section |
| PendingArea.Area.Pop | binder_hook_builder.cpp:440-522 | the pop in place: slots, counters and the yielded id and flags are those of the specification |
| PendingArea.Area.FindSlot | binder_hook_builder.cpp:459-470 | the search for the slot of a task pointer |
| PendingArea.Area.TakeTop | binder_hook_builder.cpp:467-500 | the top frame leaves its slot, and a slot without frames is given back |
| TryLock.EveryInterleaving | binder_hook_builder.cpp:230-284 | every interleaving of the single accesses of all handlers with changes of the generation keeps the machine invariant: mutual exclusion, tickets, the partly updated table of the lock holder, the generation it read, the answers under way, the counters and program order |
| TryLock.Serialisable | binder_hook_builder.cpp:230-522 | in every interleaving at most one task is inside a push or pop; each reply under way carries what the serial run of the log yields; each call in the log has one of the generations the machine had during its critical section, and the sections follow each other, so a reply whose section begins after a generation change never yields an id pushed before it; and with no handler in flight table and counters are those of that serial run, in program order, and conserved |
| TryLock.ReplyCarriesItsRequest | binder_hook_builder.cpp:230-522 | in every interleaving whose log is benign a reply under way carries the event id of a tracked request if and only if it is the reply to it |
| TryLock.GenerationKept | binder_hook_builder.cpp:402-412 | every step keeps the generations that critical sections read among those the machine had since their beginning, and the sections in order |
| TryLock.ChangeInvalidates | binder_hook_builder.cpp:482-499 | an id pushed by a section that ended before the generation changed is not yielded by one that begins after |
| LockAttempts.AttemptsBounded | binder_hook_builder.cpp:230-256 | an acquisition makes at most eight load-exclusive attempts, however it is interleaved |
| LockAttempts.DroppedAfterEight | binder_hook_builder.cpp:240-256 | the converse: in every interleaving, when the call of a task that is not one-way enters the log without the lock, the task has made exactly eight load-exclusive attempts since it began |
| LockAttempts.KeepsTrying | binder_hook_builder.cpp:240-256 | before its eighth lost attempt a task is still acquiring |
| TryLock.LockKept | binder_hook_builder.cpp:240-266 | the lock word is set exactly while some task is in its critical section, and never two are |
| TryLock.TableKept | binder_hook_builder.cpp:287-522 | every step keeps the table equal to the serial one with the lock holder's partial update |
| TryLock.CounterKept | binder_hook_builder.cpp:230-544 | every step keeps the counters equal to the serial ones but for handlers in flight |
| TryLock.AnswerKept | binder_hook_builder.cpp:440-544 | every step keeps what replies under way carry |
| TryLock.OrderKept | binder_hook_builder.cpp:230-522 | every step keeps each task's calls in the log in program order |
| TryLock.TicketKept | binder_hook_builder.cpp:524-544 | every step keeps ids positive, distinct and rising for each task |
| StreamWalker.FrameInvertsSerialise | binder_hook_builder.cpp:1283-1367 | reading a serialised list of legal commands within the cap gives the list back |
| StreamWalker.FrameIsLegal | binder_hook_builder.cpp:1283-1310 | on any bytes the commands read are legal and there, and the end says which of three things stopped the reading |
| StreamWalker.LegalListsBeginIt | binder_hook_builder.cpp:1283-1367 | every legal list that begins the bytes begins what is read: it is the longest one |
| StreamWalker.TransactionsCarryData | binder_hook_builder.cpp:1313-1345 | the commands counted as transactions have room for the 64 bytes that are copied |
| StreamWalker.FieldsOfNumber | binder_hook_builder.cpp:1288-1298 | the type and the size of a command word, here taken from its bytes, are bits 8 to 15 and 16 to 29 of the 32-bit number |
| StreamWalker.TransactionNumbers | binder_hook_builder.cpp:1313-1345 | which 32-bit command numbers are transactions whose data is copied, and which are replies |
| UserBytes.WordsAreLittleEndian | binder_hook_builder.cpp:1283-1298 | the loads of two, four and eight bytes are little-endian |
| CommandStream.StreamParser.ParseCommandStream | binder_hook_builder.cpp:1245-1369 | after the walk all counters, user memory and the list of rewrites are exactly what dispatching its commands one by one gives, with the counter of the stream entered and the one of the way it ends; every copy from the stream lies inside it and every dispatched command is legal; and the commands dispatched are those of the framing if and only if the stream stays intact, in particular when no framed reply names a buffer in it |
| CommandStream.StreamParser.WalkCommands | binder_hook_builder.cpp:1280-1357 | its loop keeps the walk invariant, that the state is the fold of the commands dispatched so far, and ends with it |
| CommandStream.StreamParser.Dispatch | binder_hook_builder.cpp:1300-1351 | counters, memory and rewrites become exactly those of one dispatched command; its word and payload are read from memory and all copies lie inside it |
| CommandStream.StreamParser.ReadHead | binder_hook_builder.cpp:1283-1298 | a command word is too short, unreadable, of another stream, too long, or good |
| CommandStream.StreamParser.RecordTransaction | binder_hook_builder.cpp:1077-1110 | a transaction counts its metadata copy or fault; a reply whose data was copied gets exactly the verdict, the counters and the rewrite of the specification, and any other command touches no memory |
| CommandStream.StreamParser.ParseReply | binder_hook_builder.cpp:908-1074 | a reply gets the verdict of the specification, counts it, and changes exactly the bytes that verdict leaves |
| CommandStream.StreamParser.GuardReply | binder_hook_builder.cpp:936-997 | the guards in order, with the counters each raises |
| ReplyRewrite.RewrittenExactlyWhen | binder_hook_builder.cpp:922-1018 | a reply is rewritten exactly when it is correlated to a tracked request, has status 0, a readable array of length 32 and size at least 40, and the captured configuration is in write mode |
| ReplyRewrite.VerdictExactlyWhen | binder_hook_builder.cpp:922-1018 | which of the ten verdicts a reply gets, each by a condition of its own on flags, sizes, readable bytes and configuration |
| ReplyRewrite.GuardsCounted | binder_hook_builder.cpp:927-997 | candidates, headers, zero statuses and valid arrays are counted as far as the guards of a reply are passed |
| ReplyRewrite.DueRepliesAreRewritten | binder_hook_builder.cpp:1077-1110 | over a whole walk exactly the due replies whose data was copied are rewritten, each judged in the memory it meets, with the captured id or, after a fault, as much of it as was copied |
| ReplyRewrite.DueReplyHasTheId | binder_hook_builder.cpp:999-1018 | after the walk a due reply whose copy worked holds the whole virtual id, when no later reply of the stream names an overlapping buffer |
| ReplyRewrite.RewritesInOrder | binder_hook_builder.cpp:1280-1357 | a command has at most one rewrite, and they come in the order of the commands |
| ReplyRewrite.TrailOfWalk | binder_hook_builder.cpp:1077-1110 | memory after a walk is the memory before it with the rewrites applied in order, each justified by a dispatched reply and correct for the memory it met; a stream from the driver rewrites nothing |
| ReplyRewrite.ReplyCountersOf | binder_hook_builder.cpp:927-1074 | over a whole walk each reply counter is raised by the number of replies with its verdict: write_ok by those stored, write_faults by those torn |
| ReplyRewrite.StreamCountersOf | binder_hook_builder.cpp:1300-1345 | over a whole walk commands and transactions are counted once each, and every transaction is a metadata copy or a metadata fault |
| ReplyRewrite.SplitOfWalk | binder_hook_builder.cpp:927-1074 | the split of the reply counters holds after every walk, and with published configurations no length mismatch is counted |
| ReplyRewrite.WrittenIsCorrect | binder_hook_builder.cpp:999-1018 | what is left in memory is the captured id, or a shorter prefix of it after a fault |
| ReplyRewrite.SplitKept | binder_hook_builder.cpp:927-1074 | reply_candidates splits into four failures and the replacements, and those into length mismatch (never, for published configurations), dry run, write and write fault |
| ReplyRewrite.WalkFrame | binder_hook_builder.cpp:1006-1011 | after a whole walk a byte of user memory outside every window of a rewritten reply is unchanged |
| ReplyRewrite.WindowContents | binder_hook_builder.cpp:1006-1011 | what a rewrite leaves stays unless a later reply of the stream names an overlapping buffer |
| CommandStream.WalkGoesOn | binder_hook_builder.cpp:1300-1356 | passing one command keeps the walk invariant: each command was read where the ones before it end, in the memory they left |
| CommandStream.WalkStops | binder_hook_builder.cpp:1281-1298 | the walk stops at the cap, at bad bytes or at a fault, and nowhere else |
| CommandStream.WalkEnds | binder_hook_builder.cpp:1353-1367 | a finished walk has read what the framing reads, a faulted one a prefix of it, if and only if the stream stayed intact |
| CommandStream.ReadsIfIntact | binder_hook_builder.cpp:1280-1357 | when each framed command is still there as the walk comes to it, and behind the last one still none begins, the walk reads the framing |
| CommandStream.IntactIfReads | binder_hook_builder.cpp:1280-1357 | and only then |
| CommandStream.ElsewhereStaysIntact | binder_hook_builder.cpp:1002-1011 | a stream none of whose framed replies names a buffer in it stays intact |
| CommandStream.ApartStaysIntact | binder_hook_builder.cpp:1002-1011 | so does one of which dispatching the framed commands would rewrite nothing |
| CommandStream.OwnStreamIsRewritten | binder_hook_builder.cpp:999-1011 | a stream of two legal commands that a walk in write mode does not read as framed, wherever it stands: its reply names the bytes in front of the second command, which the id replaces |
| StreamWalker.FrameStops | binder_hook_builder.cpp:1280-1310 | behind k framed commands stands the next one, or what ended the framing |
| CommandStream.StreamParser.CopyToUser | binder_hook_builder.cpp:1006-1011 | a copy to user memory changes exactly its target bytes |
| ParcelMatcher.FlagIsSound | binder_hook_builder.cpp:666-815 | the device-id flag means code 11 and, inside the captured bytes, the exact terminated descriptor and the exact terminated property name |
| ParcelMatcher.RequestIsFlagged | binder_hook_builder.cpp:666-815 | every plain or domain-tagged request at a token offset of a multiple of four up to 32, whatever precedes it, is flagged at its own offset |
| ParcelMatcher.NoOverlap | binder_hook_builder.cpp:580-600 | the terminator keeps the descriptor from overlapping itself |
| ParcelMatcher.NothingEarlier | binder_hook_builder.cpp:672-714 | so no earlier offset matches in any of the three forms |
| ParcelMatcher.PrefixIsEnough | binder_hook_builder.cpp:862-880 | the captured 256 bytes are enough to see a request |
| ParcelMatcher.RequestInMemoryIsFlagged | binder_hook_builder.cpp:833-902 | a request in readable memory is captured and flagged |
| ParcelMatcher.MatchUtf16 | binder_hook_builder.cpp:580-600 | the UTF-16 comparison loop decides equality with the terminated text |
| ParcelMatcher.MatchUtf8 | binder_hook_builder.cpp:602-622 | the UTF-8 comparison loop decides equality with the terminated text |
| ParcelMatcher.MatchDescriptor | binder_hook_builder.cpp:672-714 | the three forms in order, each comparison guarded by the number of captured bytes |
| ParcelMatcher.MatchProperty | binder_hook_builder.cpp:724-804 | the property behind the descriptor, or the fallback search |
| ParcelMatcher.MatchLooseProperty | binder_hook_builder.cpp:765-804 | the fallback finds the bare name at multiples of four up to 64 in either encoding, if it is there |
| ParcelMatcher.TryParcelDescriptor | binder_hook_builder.cpp:666-815 | the scan over nine offsets is the specification, with its counters |
| ParcelMatcher.CaptureParcelPrefix | binder_hook_builder.cpp:833-902 | at most 256 bytes are captured, all inside the parcel, or none on a fault |
| ParcelWriter.WrittenIsFlagged | binder_hook_builder.cpp:666-815 | the parcel as a client writes it, byte by byte (up to 32 bytes of a multiple of four, the length word, a build domain or none, the descriptor in UTF-16 with zero unit and padding, the property name the same way, and anything behind), is flagged with code 11, at its offset |
| ParcelWriter.WrittenInMemoryIsFlagged | binder_hook_builder.cpp:833-902 | in readable memory its first 256 bytes, or all of it, are captured and flagged |
| ParcelWriter.FlaggedExactlyWhen | binder_hook_builder.cpp:666-815 | on any bytes the first multiple of four up to 32 with the descriptor decides, and the flag is raised if and only if the property name stands 68 bytes behind it (72 with a domain), or bare in either encoding at a multiple of four up to 64 |
| ParcelWriter.OthersAreUnknown | binder_hook_builder.cpp:666-815 | without a descriptor, or with another code, nothing is flagged and the parcel is counted as unknown |
| ParcelWriter.Utf16AtExactlyWhen | binder_hook_builder.cpp:580-600 | a text is matched in UTF-16 exactly where its little-endian units and a zero unit stand |
| ParcelWriter.Utf8AtExactlyWhen | binder_hook_builder.cpp:602-622 | and in UTF-8 where its bytes and a zero byte stand |
| EndToEnd.RewritesAnswerRequests | binder_hook_builder.cpp:1077-1230 | over every run of the commands of all threads, with user memory changing in between: memory is rewritten only for a reply that was given the frame of an earlier request of its own task, read under the same HAL generation, in whose captured prefix code 11, descriptor and property were recognised; and each write is correct |
| EndToEnd.ReadyReplyIsRewrittenExactlyWhen | binder_hook_builder.cpp:1077-1230 | in a run that is benign for the pending table a reply with status 0, 32 readable bytes and a configuration in write mode is rewritten if and only if it is the reply to a recognised request; then the whole virtual id is where its content was, and no other byte is changed |
| EndToEnd.PlainRequestAsks | binder_hook_builder.cpp:833-902 | a request as the framework or a vendor client writes it, anywhere in readable memory, is recognised |
| EndToEnd.WrittenRequestAsks | binder_hook_builder.cpp:833-902 | so is a request whose parcel is written byte by byte, by the number of its command and the offsets of its transaction data |
| EndToEnd.WrittenRequestIsAnswered | binder_hook_builder.cpp:1077-1230 | from bytes to bytes: in a benign run, when a task is delivered a written two-way request and next dispatches a written reply with status 0 and 32 bytes, these become the first 32 bytes of the configured id, and every other byte of memory stays |
| EndToEnd.RequestOfPayload | binder_hook_builder.cpp:396-417 | which bytes of the transaction data a frame keeps |
| EndToEnd.YieldsExactlyWhen | binder_hook_builder.cpp:1098-1107 | in such a run a reply is given an id if and only if it is the reply to a recognised request |
| EndToEnd.ChanceIsYield | binder_hook_builder.cpp:1098-1107 | the id and flags a reply is judged by are those its call yields in the serial run of the pending table |
| EndToEnd.EveryRunIsLinked | binder_hook_builder.cpp:1077-1230 | every run keeps the table that of the serial run of the calls its events made, ids tickets, and every rewrite made by its own reply |
| EndToEnd.WalkInRun | binder_hook_builder.cpp:1245-1369 | a walk in the middle of a run does what the walk of one stream is proved to do, for what the pending table gives its replies |
| DoubleSlot.EveryPublicationIsSafe | binder_hook_builder.cpp:171-187 | in every interleaving of slot writes, counter write, flip, failures at any point and readers: the active slot holds a valid content whole, active generations strictly increase, and a reader reads cells of one published content as long as it reads none after a write to its slot, and always while at most one publication overlaps it |
| DoubleSlot.ReplyUsesOneConfig | binder_hook_builder.cpp:999-1010 | so a reply that has read length, mode and 32 id bytes has those of one published configuration, and the length is 32 |
| DoubleSlot.TwoPublicationsTear | binder_hook_builder.cpp:171-187 | for any three contents in turn a thread overlapped by two publications can read from the first and the third |
| DoubleSlot.SlotPair.Publish | binder_hook_builder.cpp:1738-1787 | the slot in use is never written; the index moves only to a slot that holds all of the new content; rejected exactly when invalid or not newer; its writes are steps of the publisher above |
| DoubleSlot.SlotPair.FillSpare | binder_hook_builder.cpp:1765-1772 | the write to the spare slot, as far as it gets, cell by cell |
| DoubleSlot.SlotPair.constructor | binder_hook_builder.cpp:1658-1684 | both slots begin with the installed content |
| DoubleSlot.ValidateIdentities | binder_hook_builder.cpp:82-99 | the loop decides that the set is sorted, without zeros, and padded with zeros |
| DoubleSlot.SlotsKept | binder_hook_builder.cpp:1738-1787 | every step keeps the slots, the lineage of generations and the publisher consistent |
| DoubleSlot.OthersUndisturbed | binder_hook_builder.cpp:171-187 | no step does worse to an undisturbed reader than one more overlap |
| HalMonitor.IterateKeeps | control_ipc.cpp:438-517 | one turn of the server loop keeps the invariant (mirror of the kernel set, waiting exactly when empty, one descriptor for each identity with pidfds and none otherwise, alternating publications) exactly when it is not a publication of found processes reported failed after it took effect |
| HalMonitor.EveryRun | control_ipc.cpp:438-517 | over every run of exits, time-outs, discoveries and failing publications the invariant holds at each loop head exactly as long as that has not happened |
| HalMonitor.StaysAdrift | control_ipc.cpp:125-222 | once it has happened the kernel set never changes again, and leaving the loop reports success with the gate open |
| HalMonitor.AmbiguityIsReachable | control_ipc.cpp:124-143 | from initialisation with an empty set under any generation that can still grow, one turn that finds processes and whose publication takes effect but is reported as failed breaks the mirror |
| HalMonitor.StartMirrors | control_ipc.cpp:224-250 | initialisation from whatever set the kernel has establishes the invariant |
| HalMonitor.StartFollows | control_ipc.cpp:224-250 | it goes on with a non-empty set, by descriptors or without, and clears it when one of its processes is gone |
| HalMonitor.WaitingMonitorAdopts | control_ipc.cpp:438-517 | progress: when every call works, a whole time-out of a waiting monitor publishes the processes it finds under the next generation and watches them, or doubles its wait up to 2000 ms |
| HalMonitor.FallbackMonitorFollows | control_ipc.cpp:438-517 | a monitor in procfs fallback keeps the set it finds again, clears it under the next generation when it finds none, and publishes another one under the generation after that |
| HalMonitor.WatchingMonitorReacts | control_ipc.cpp:476-517 | a monitor with pidfds does not look, but clears the set as soon as a process exits |
| HalMonitor.BlindLookRetries | control_ipc.cpp:206-222 | a look that cannot tell which processes there are clears the set and tries again after 100 ms |
| HalMonitor.WaitOfBackend | control_ipc.cpp:438-451 | a monitor waits for its retry time, 5000 ms, or an exit |
| HalMonitor.WakeupsAreCounted | control_ipc.cpp:206-222 | every look and every exit of a watched process is counted, up to 32 bits |
| HalMonitor.LeavingClosesTheGate | control_ipc.cpp:585-590 | leaving a mirrored loop successfully empties the kernel set and closes every descriptor |
| HalMonitor.EmptyLooksBackOff | control_ipc.cpp:169-176 | k empty discoveries in a row from a fresh wait give a retry of min(50 * 2^k, 2000) ms and change nothing else |
| HalMonitor.BackoffDoubles | control_ipc.cpp:48-49 | the capped doubling is that minimum |
| HalMonitor.GoodIdsAreValid | binder_hook_builder.cpp:82-99 | the ids a discovery gives are exactly those the publisher accepts |
| HalMonitor.LookKeeps | control_ipc.cpp:206-222 | a whole look, with its recovery, keeps the invariant exactly when it is not ambiguous |
| HalMonitor.AdoptionKeeps | control_ipc.cpp:169-204 | adoption and the clearing behind a failed one |
| HalMonitor.ClearKeeps | control_ipc.cpp:149-167 | clearing a mirrored state, when it works and what it leaves |
| HalMonitor.Monitor.constructor | control_ipc.cpp:58-64 | the state before initialisation |
| HalMonitor.Monitor.Initialize | control_ipc.cpp:224-250 | initialisation in place is the specification |
| HalMonitor.Monitor.OpenIdentityPidfds | control_ipc.cpp:88-106 | one descriptor for each identity in order, or none and why |
| HalMonitor.Monitor.PublishMonitored | control_ipc.cpp:125-147 | the publication in place, with the generation bound |
| HalMonitor.Monitor.ClearMonitored | control_ipc.cpp:149-167 | the clearing in place |
| HalMonitor.Monitor.AdoptDiscovered | control_ipc.cpp:169-204 | the adoption in place |
| HalMonitor.Monitor.RediscoverIdentities | control_ipc.cpp:206-222 | the look in place |
| HalMonitor.Monitor.Handle | control_ipc.cpp:476-517 | one turn of the loop in place |
| HalMonitor.Monitor.Serve | control_ipc.cpp:438-590 | the loop in place ends in the state of the run it handled, cleared on the way out |
| GenerationProtocol.StepKeeps | web_ui.cpp:417-506 | every step keeps the invariant (file equal to the latest active configuration or one generation ahead, active generations never down, no generation active with two configurations) exactly when it is not a write under a number that a restart has made active since the status was read |
| GenerationProtocol.EveryRun | web_ui.cpp:417-506 | so every run without such a write keeps it, through failures, crashes, lost answers and restarts, whether the first file was generated or migrated |
| GenerationProtocol.RestartBetweenStatusAndWrite | web_ui.cpp:475-492 | such a write is reachable from any first file: a run in which the next generation is active with two different configurations |
| GenerationProtocol.ActivateKeeps | control_ipc.cpp:537-563 | making the file active, by an apply or at a start, keeps the invariant |
| GenerationProtocol.WebUi.HandleApply | web_ui.cpp:417-506 | the request handler is a run of the protocol whose HTTP status and final state are given for every outcome of its calls; left alone by the daemon it keeps the invariant, 200 means that what was asked for is active, and is returned exactly when it was active before or file and kernel have been brought to it under the next generation; otherwise the file holds it or nothing has changed |
| GenerationProtocol.WebUi.SaveAndApply | web_ui.cpp:429-506 | its part behind the status: no-op, full generations, refused or failed write, lost answer and failed publication each give their code and their state, whatever the daemon did since the status |
| GenerationProtocol.LeftAloneIsHonest | web_ui.cpp:465-506 | in a state of the invariant whose status is current, the codes and states that the handler gives say the truth about what is active and what is in the file: 200, 409, 500 and 503 each exactly when, an unchanged mode and fingerprint with 200 and nothing touched |
| GenerationProtocol.FileFollows | web_ui.cpp:465-492 | whatever the daemon has done, an unchanged request, a full generation, an id or seed that no file can hold and a failing write change nothing, and otherwise the file takes the wanted mode, id, fingerprint and seed under the generation behind the one of the status |
| Sha256.HashChunks | runtime_profile.cpp:55-94 | for any split of a message into updates the digest is that of the whole message |
| Sha256.Hasher.constructor | runtime_profile.cpp:43-53 | a fresh object has hashed nothing |
| Sha256.Hasher.Update | runtime_profile.cpp:55-69 | an update appends to the message; the buffer index stays below 64 |
| Sha256.Hasher.Take | runtime_profile.cpp:59-67 | as many bytes as the buffer has room for, and a block when it is full |
| Sha256.Hasher.Finish | runtime_profile.cpp:71-94 | the digest is padding, parsing and hash computation of FIPS 180-4 on the message |
| Sha256.Hasher.Close | runtime_profile.cpp:73-85 | one block or two close the padded message |
| Sha256.Hasher.Spill | runtime_profile.cpp:74-78 | a block with no room for the length |
| Sha256.Hasher.LastBlock | runtime_profile.cpp:79-83 | the block that ends with the length |
| Sha256.Hasher.Transform | runtime_profile.cpp:96-162 | one block is section 6.2.2 of FIPS 180-4 |
| Sha256.Hasher.RunRounds | runtime_profile.cpp:130-153 | the 64 rounds over eight local variables are step 3 |
| Sha256.Hasher.PrepareSchedule | runtime_profile.cpp:115-128 | the schedule array is step 1 |
| Sha256.Hasher.WriteDigest | runtime_profile.cpp:85-92 | the digest is the state, most significant byte first |
| Sha256.PadIsFips | runtime_profile.cpp:71-83 | the padding is the least that section 5.1.1 of FIPS 180-4 allows, and for messages under 2^61 bytes the length field is the length |
| Sha256.LengthIsBigEndian | runtime_profile.cpp:79-83 | the eight bytes of the length field spell the number of bits, most significant byte first |
| Sha256.PadBlocks | runtime_profile.cpp:73-83 | padding closes the last block, or the last and one more |
| Sha256Example.HashOfAbc | runtime_profile.cpp:369-379 | the digest of "abc" is the one of the module's self-test and of FIPS 180-4, computed from the constants through all 64 rounds |
| Hkdf.HmacSha256 | runtime_profile.cpp:176-201 | the two passes are HMAC of section 2 of RFC 2104, for every key length |
| Hkdf.NormalizeKey | runtime_profile.cpp:180-186 | the key as a block, hashed first when longer than 64 bytes |
| Hkdf.Pads | runtime_profile.cpp:187-192 | the inner and outer pads |
| Hkdf.HkdfSha256 | runtime_profile.cpp:203-233 | the output is HKDF of sections 2.2 and 2.3 of RFC 5869 for every length up to 8160, refused beyond; the one-byte counter holds the block number each time it is used |
| Hkdf.Emit | runtime_profile.cpp:228-230 | one block more of the output, or what there is room for |
| Hkdf.ShorterIsPrefix | runtime_profile.cpp:203-233 | a shorter output is a prefix of a longer one |
| Hkdf.BlockOfStream | runtime_profile.cpp:218-231 | the i-th 32 bytes of the stream are T(i) |
| Hkdf.NoSaltIsZeroSalt | runtime_profile.cpp:176-186 | an empty salt is a salt of 32 zeros |
| Hkdf.SaltIsTheKey | runtime_profile.cpp:203-216 | the salt is the key of the extraction: an absent one is 32 zeros, and one of more than 64 bytes its hash, for every input and length |
| Hkdf.OutputIsChained | runtime_profile.cpp:218-231 | the i-th 32 bytes of the output are the HMAC, under HMAC(salt, ikm), of the 32 before them, the info and the byte i |
| Hkdf.HmacIsTwoHashes | runtime_profile.cpp:176-201 | with a key of 64 bytes or less HMAC is the hash of the key XOR 0x5c and the hash of the key XOR 0x36 and the data, byte by byte |
| Hkdf.LongKeyIsItsHash | runtime_profile.cpp:180-186 | a key of more than 64 bytes is its hash |
| Crc32.Compute | runtime_control.cpp:61-72 | the masked bit loop computes the CRC-32 register division |
| Crc32.CheckValue | runtime_control.cpp:61-72 | the check value: the CRC of the characters 1 to 9 is 0xcbf43926 |
| Crc32.CrcDetectsBursts | runtime_control.cpp:61-72 | two inputs of any equal length that differ, but only inside four consecutive bytes, have different CRCs |
| Crc32.RegisterDetects | runtime_control.cpp:61-72 | the same for the register from any start |
| Crc32.CrcIsResidue | runtime_control.cpp:61-72 | data followed by a word leaves one fixed register value exactly when the word is the CRC |
| Crc32.FourBytes | runtime_control.cpp:61-72 | feeding four bytes is 32 steps of the register with their little-endian word |
| Crc32.ShiftLinear | runtime_control.cpp:66-69 | the register is linear |
| Crc32.RegisterInjective | runtime_control.cpp:61-72 | registers that differ stay different behind equal bytes |
| ControlRecord.BurstsAreRejected | runtime_control.cpp:144-156 | a valid v3 record altered only inside four consecutive bytes, anywhere in its 128, is rejected |
| ControlRecord.ReadBack | runtime_control.cpp:219-263 | reading a written record gives every field and the first 32 id bytes with a zero tail |
| ControlRecord.ValidExactlyWhen | runtime_control.cpp:144-156 | a valid v3 record holds a sound configuration, and the valid records with a zero id tail are exactly what the writer makes of what the reader makes of them |
| ControlRecord.RecordBegins | runtime_control.h:10-12 | the first sixteen bytes of every record: DRMCTL18, 3 and 128 |
| ControlRecord.FieldsOf | runtime_control.cpp:39-59 | where each field of a v3 record stands |
| ControlRecord.GoodChecksum | runtime_control.cpp:144-156 | the checksum is good exactly when the register over 124 bytes ends at one value |
| ControlRecord.ConversionIsSound | runtime_control.cpp:293-303 | a valid v2 record converts to one that can be written exactly when it has a fingerprint |
| ControlRecord.Record2ReadBack | runtime_control.cpp:128-142 | a v2 record written field by field with a generation, a seed and a mode is valid exactly when its targets are, and the migration reads every field and the first 32 id bytes back |
| ControlRecord.FieldsOfRecord2 | runtime_control.cpp:21-56 | where each field of a v2 record stands |
| ControlRecord.ValidateV3 | runtime_control.cpp:144-156 | the v3 check decides validity |
| ControlRecord.ValidateV2 | runtime_control.cpp:128-142 | the v2 check decides validity |
| ControlRecord.CheckTargets | runtime_control.cpp:106-126 | the loop decides that targets are sorted, without zeros, padded with zeros, and present exactly when the rule mode asks for them |
| ControlRecord.TargetsExactlyWhen | runtime_control.cpp:106-126 | a list of targets filled up with zeros passes exactly when each is above the one before it, the first above zero, and there are none in rule mode 0 alone |
| RuntimeControl.Disk.constructor | runtime_control.cpp:166-217 | a disk with a control file and a version 2 file, or without |
| RuntimeControl.Disk.WriteRecord | runtime_control.cpp:166-217 | at every step the name holds the old file or a complete new record; it succeeds exactly when every call does |
| RuntimeControl.Disk.FillTemporary | runtime_control.cpp:176-193 | short and interrupted writes still put the record out whole, or fail |
| RuntimeControl.ReadExact | runtime_control.cpp:74-104 | a file of exactly the size is read whole, any other is an error |
| RuntimeControl.ReadControl | runtime_control.cpp:234-247 | what is accepted is a valid record, read field by field |
| RuntimeControl.Migrate | runtime_control.cpp:266-316 | an existing v3 file is never touched; what is written is the record of the converted v2 file |
| RuntimeControl.MigrationPreserves | runtime_control.cpp:293-303 | generations, fingerprint, mode and id of a valid v2 record survive; one without a fingerprint is refused and left alone |
| RuntimeControl.MigrationIsIdempotent | runtime_control.cpp:266-316 | migrating again succeeds and changes nothing |
| RuntimeControl.MigratesExactlyWhen | runtime_control.cpp:266-316 | a migration succeeds exactly with a valid v3 file, without any file, or with a valid v2 file that has a fingerprint, and writes only in the last case |
| RuntimeControl.StatusExactlyWhen | runtime_control.cpp:234-247 | which status a reader gives for a missing file, one of another size, an invalid and a valid one |
| RuntimeControl.SoundIsPublishable | binder_hook_builder.cpp:74-81 | the record writer and the publisher of the active slot accept the same configurations |
| RuntimeControl.WrittenReadsBack | runtime_control.cpp:249-263 | a written file reads back as the configuration trimmed to its id |
| StartupReadiness.WaitForReadiness | startup_readiness.cpp:252-323 | the wait ends by the deadline; it is satisfied at the first sample that closes a window of ceil(stable/poll) quiet pairs, and falls back exactly when there is none |
| StartupReadiness.WindowIsStable | startup_readiness.cpp:204-234 | across a window both processes keep pid and start time, the process count is constant, and each processor counter grows by at most pairs times the allowed ticks |
| StartupReadiness.RunIsWindow | startup_readiness.cpp:279-284 | the stable counter covers n pairs exactly when the last n were quiet |
| StartupReadiness.PairsCover | startup_readiness.cpp:279-284 | n polls cover the stable time exactly when n is at least its ceiling |
| StartupReadiness.FromEnvironment | startup_readiness.cpp:236-250 | every policy the environment can produce is within bounds, its deadline not below its stable time |
| StartupReadiness.Bounded | startup_readiness.cpp:169-183 | a number within bounds is taken, and anything else gives the default |
| StartupReadiness.ReadyMeansEverything | startup_readiness.cpp:185-202 | the bit mask is full exactly when all eight conditions hold |
| StartupReadiness.QuietExactlyWhen | startup_readiness.cpp:204-234 | a pair is quiet exactly when everything is ready, both processes are the same ones, the process count is the same, and neither has used more than one tick beyond its share of the processor, unless the product wraps |
| StartupReadiness.AliveExactlyWhen | startup_readiness.cpp:43-47 | a process is alive when its pid is above 1, its start time known, and its state neither zombie nor dead nor unknown |
| EntryClassifier.AcceptedEntry | binder_ioctl_resolver.cpp:465-480 | every accepted entry begins with an instruction that is neither PC-relative nor control flow and leads to a good prologue, its own or that of a target in core text strictly behind the branch and less than 2^27 bytes away |
| EntryClassifier.AcceptedExactlyWhen | binder_ioctl_resolver.cpp:413-480 | and the converse: an entry is accepted if and only if it is a prologue, or a prefix and a branch forward that leads to one in core text |
| EntryClassifier.SemanticEntryExactlyWhen | binder_ioctl_resolver.cpp:482-526 | an entry is a prologue if and only if its first four words can be moved and, behind an optional BTI and an optional PAC, one word makes a frame and saves the frame link, or one of the next three saves it |
| EntryClassifier.DecodedExactlyWhen | binder_ioctl_resolver.cpp:403-411 | a word is decoded to a displacement if and only if it is its encoding up to the link bit |
| EntryClassifier.SemanticEntryIsPrologue | binder_ioctl_resolver.cpp:482-526 | a classified prologue has a frame of a multiple of 16 bytes in 16 to 4096, a saved frame link and four relocatable words |
| EntryClassifier.TargetIsForward | binder_ioctl_resolver.cpp:436-449 | an accepted veneer target does not wrap around and lies strictly ahead |
| EntryClassifier.DecodeInvertsEncode | binder_ioctl_resolver.cpp:403-411 | decoding inverts encoding for every word-aligned displacement in [-2^27, 2^27) but zero, which is refused |
| EntryClassifier.EncodeInvertsDecode | binder_ioctl_resolver.cpp:403-411 | whatever decodes is such a displacement, and the word is its encoding up to the link bit |
| EntryClassifier.SubSpIsExact | binder_ioctl_resolver.cpp:315-325 | the immediate form is accepted exactly for encodings of multiples of 16 from 16 to 4080 |
| EntryClassifier.PreIndexIsExact | binder_ioctl_resolver.cpp:342-356 | the pre-index form is accepted exactly for encodings of multiples of 16 from 16 to 512, bits 30 and 26 left open |
| EntryClassifier.HintsAre | binder_ioctl_resolver.cpp:306-313 | BTI and PAC words are the hints 34, 36 and 38, and 25 and 27 |
| EntryClassifier.FrameWordsAre | binder_ioctl_resolver.cpp:327-360 | the frame-base and frame-link words, by their fields |
| EntryClassifier.ControlFlowIs | binder_ioctl_resolver.cpp:362-371 | the PC-relative and control-flow words, by the fields of their classes |
| EntryClassifier.HookSiteIsMovable | binder_ioctl_resolver.cpp:378-401 | an instruction the hook may replace is neither PC-relative nor control flow |
| EntryClassifier.SemanticsTell | binder_ioctl_resolver.cpp:482-526 | the bits of a classified prologue say what is in it |
| EntryClassifier.AcceptanceTells | binder_ioctl_resolver.cpp:454-480 | the bits of an accepted entry say how it was accepted and what is replaced |
| EntryClassifier.ClassifySemanticEntry | binder_ioctl_resolver.cpp:482-526 | the classifier with its cursors is the specification |
| EntryClassifier.ClassifyVeneerTarget | binder_ioctl_resolver.cpp:413-463 | the veneer path is the specification |
| EntryClassifier.ClassifyHookableEntry | binder_ioctl_resolver.cpp:465-480 | the entry classifier is the specification |

## Left out

- TryLock.Serialisable: a sequentially consistent interleaving; the acquire, release and exclusive accesses are single steps, and weak-memory reordering is not modelled. A counter increment is attached to a neighbouring access of the same handler, and several stores of a frame that no other task reads are one step.
- PendingTable.PopMeaning: only the task pointer is compared on a pop, so nothing is claimed about pid and tgid there.
- PendingRuns.EveryRun: event ids and counters are natural numbers; their wrap at 2^64 is not modelled.
- CommandStream.StreamParser.ParseCommandStream: addresses are natural numbers and the array covers the addresses of the stream; a copy faults as a whole before anything is read, and addition of addresses does not wrap.
- CommandStream.StreamParser.RecordTransaction: the event ring, the telemetry and the parcel capture of request commands are not part of the walk; the id and flags that a pop yields and the captured configuration are inputs, which `PendingArea` and `DoubleSlot` describe; `EndToEnd` supplies id and flags.
- EndToEnd.RewritesAnswerRequests: dispatching a command is one step, so the handlers' accesses to user memory do not overlap; the configuration a reply captures is an input. The identity gate is not modelled.
- ReplyRewrite.WindowContents: stated for replies of one stream; two threads that rewrite overlapping buffers at once are not modelled.
- DoubleSlot.EveryPublicationIsSafe: one publisher at a time, as the daemon has; memory order is that of the steps.
- HalMonitor.IterateKeeps: a discovery result is any sorted list of at most four distinct non-zero ids; reading /proc, sorting and the pidfd system calls are inputs. The rejection and restart counters are not modelled.
- GenerationProtocol.WebUi.HandleApply: form parsing, the profile, random bytes and decoding of custom ids end in a choice of mode, id and seed, and the codes of their failures are not modelled; a fingerprint is any function of the id, and an unchanged fingerprint stands for an unchanged id as in the source.
- GenerationProtocol.EveryRun: a file write is one step, as `RuntimeControl.Disk.WriteRecord` allows; loss of power behind an unsynced directory is not modelled.
- Sha256.Hasher.Finish: on messages of 2^61 bytes and more, which FIPS 180-4 does not cover, the length field is the bit count modulo 2^64, as in the code.
- RuntimeControl.Disk.WriteRecord: permissions, the final directory sync and the path arguments are not modelled.
- StartupReadiness.WaitForReadiness: sampling of properties and processes is an input; logging is not modelled.
- EntryClassifier.AcceptedEntry: kernel symbols and reads of kernel memory are inputs; the resolution of the ioctl pointer through file structures is not modelled.
- Register allocation, instruction emission, stack scratch layout and the kernel SDK helpers.
- The hook's identity gate before the parser, the seed record, the device fingerprint, the file lifecycle, HTTP routing, sessions, the watchdog, JSON output, the probes and the packaging scripts: they would add input and output and easy checks.
- Collision resistance of the hash and secrecy of the virtual id: not functional properties.
