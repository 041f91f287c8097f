# jpipe: a verified model

jpipe copies a byte stream from its standard input to JSON-like log lines. A reader thread fills
fixed-size blocks, a single-producer single-consumer ring queue hands them over with a two-phase
reserve and commit, and a writer thread re-assembles newline-delimited lines across blocks, escapes
each one and writes it between a prefix built from the user's fields and a fixed postfix.

This project models that path and proves what it does, up to one statement about the whole program:
whatever the thread interleaving and however `read` cuts the input, a completed run under the wait
policy writes records that depend on the input bytes alone, and a run that ends early writes the
beginning of them.

| file | what it models |
|---|---|
| `Bytes.dfy` | byte strings, concatenation, writes into a buffer |
| `RingQueue.dfy` | the ring of `src/queue.c` as a value, and as a heap object over one byte area |
| `QueueProtocol.dfy` | the queue as a concurrent protocol: every interleaving of its atomic steps |
| `LineSplitting.dfy` | the records a stream should give, the byte machine the writer implements, and their exact relation |
| `Writer.dfy` | the writer's loops over a block, with the overflow buffer, on top of the record writer |
| `JsonString.dfy`, `JsonNumber.dfy`, `JsonPrefix.dfy` | the escaper, the number automaton and the prefix builder of `src/json.c` |
| `Framing.dfy` | the bytes of a written record, and how records are recovered from the output |
| `JsonText.dfy` | the JSON texts of RFC 8259, and why no written line is one |
| `Fields.dfy` | the ordered field set of `src/field.c` |
| `VectoredWrite.dfy`, `RecordOutput.dfy` | the short-write loop of `src/file.c`, and the one vector that is reused for all records |
| `Reader.dfy` | the reader's loops against an arbitrary poller, queue and input |
| `Pipeline.dfy` | reader, queue and writer composed; the end-to-end theorems |
| `Completion.dfy` | which runs can still complete, that no line waits for more input, that the drop policy never waits, and a run in which an early finalize loses input |
| `Program.dfy` | from the arguments and a run of the pipeline to the bytes on the output |

How the concurrency is modelled: a section that the source runs under the queue's lock is one
atomic action; each unlocked load of a fast path is an action of its own, so that what it saw may be
stale; waiting on a condition variable, being signalled and waking spuriously are explicit. An
interleaving is a finite sequence of actions, and an action whose thread is elsewhere does nothing,
so quantifying over all sequences covers every schedule. Memory is sequentially consistent.

What the environment decides (poller results, `read` and `writev` results, failing writes, signals)
is a parameter or a nondeterministic choice. Loops that may run forever are covered by all their
finite parts.

Where the program and its documentation disagree, the model follows the program:

- the prefix ends in `"msg":` and the postfix starts with a closing quote, so no written line is JSON
  (`JsonText.NoLineIsJson`), although the documentation promises one JSON object per line;
- a key may have 32 bytes, not 64, and a full field set refuses even a new value for a key it has;
- values are escaped or copied verbatim; nothing is unquoted or reformatted;
- bytes after the last newline are not flushed at shutdown: the last piece stays in the overflow buffer;
- a line whose length is a positive multiple of the chunk size is followed by an empty record exactly
  when its last byte ended a block shorter than the chunk size (`LineSplitting.MachineMeaning`), so
  block boundaries show in the output exactly when such a line exists (`LineSplitting.BoundaryIndependence`);
- a short `writev` that cuts the prefix, the value or the postfix leaves the vector edited for all later
  records: they get their frames if and only if that never happens (`RecordOutput.ReuseExactly`,
  `RecordOutput.CutSpoilsLaterRecords`, `RecordOutput.CutValueGarbles`);
- if an outside thread finalizes while the producer is past its check of `active`, one block may be
  committed and never popped, and only then (`QueueProtocol.DrainExactly`,
  `Completion.EarlyFinalizeLosesInput`).

## Model

| member | source | states |
|---|---|---|
| RingQueue.TailFollowsWindow | src/queue.c:93-98 | in the source's modular arithmetic, `tail` is `length` places after `head` |
| RingQueue.PushAppends | src/queue.c:93-99 | committing a push keeps the index relation and appends the tail block to the queued blocks |
| RingQueue.PopRemovesOldest | src/queue.c:124-130 | committing a pop keeps the index relation and removes exactly the oldest queued block |
| RingQueue.FillKeepsWindow | src/queue.c:65-68 | while the ring is not full, writing the reserved block changes no queued block |
| RingQueue.LayoutExtended | src/queue.c:24-27 | bytes written into one block's part of the area change no other block |
| RingQueue.VerdictsExactly | src/queue.c:60-121 | which ring and policy make each check of a push and of a pop wait, shut down, drop or grant, as if-and-only-ifs |
| RingQueue.Queue.constructor | src/queue.c:7-27 | the blocks get disjoint parts of one area and the queue starts empty and active |
| RingQueue.Queue.PushFast | src/queue.c:65-68 | the unlocked check of a push grants the tail block exactly when `length` is below the capacity |
| RingQueue.Queue.PushSlow | src/queue.c:70-90 | one pass of the locked section of a push waits, shuts down, drops or grants, in that order |
| RingQueue.Queue.PopFast | src/queue.c:102-105 | the unlocked check of a pop grants the head block exactly when the queue is not empty |
| RingQueue.Queue.PopSlow | src/queue.c:107-121 | one pass of the locked section of a pop waits, shuts down or grants |
| RingQueue.Queue.Clear | src/reader.c:37-39 | a granted block is emptied and no other block changes |
| RingQueue.Queue.Extend | src/reader.c:50-52 | a read appends to the reserved block in the shared area and to no other block |
| RingQueue.Queue.PushCommit | src/queue.c:93-99 | the queued blocks gain the tail block at their end |
| RingQueue.Queue.PopCommit | src/queue.c:124-130 | the queued blocks lose their first |
| RingQueue.Queue.Finalize | src/queue.c:132-143 | the queue becomes inactive and its blocks and indices stay |
| QueueProtocol.RunKeeps | src/queue.c:60-143 | every interleaving keeps the FIFO, the reservations, the wait conditions and the shutdown facts |
| QueueProtocol.FifoRefinement | src/queue.c:60-130 | in every reachable state the popped blocks and then the queued ones are the committed blocks in order, byte for byte, and `tail == (head + length) % capacity` |
| QueueProtocol.SlotExclusivity | src/queue.c:60-130 | despite stale unlocked loads, the producer's block is outside the live window and never the consumer's, and the consumer's block holds what was committed for it |
| QueueProtocol.NoLostWakeup | src/queue.c:70-143 | an unsignalled waiting consumer implies an empty active queue, an unsignalled waiting producer a full active one under the wait policy; never both; none once finalized |
| QueueProtocol.DropsOnlyWhenFull | src/queue.c:81-86 | in every run, pushes are told to drop exactly as often as one saw the queue full and active under its lock and the drop policy |
| QueueProtocol.ChecksAnswer | src/queue.c:60-121 | in every reachable state, where each load and each locked section takes its thread, by what the ring holds at that moment |
| QueueProtocol.DeadlockFree | src/queue.c:60-143 | in every reachable state the next step of the producer's or the consumer's own program can be taken, exactly until both are gone |
| QueueProtocol.ShutdownBounds | src/queue.c:60-143 | after finalize at most one block is still committed, and at most the queued blocks and that one are still popped |
| QueueProtocol.ShutdownTerminates | src/queue.c:60-143 | after finalize both threads take at most 13 + 5 * capacity further steps through the queue's calls in any interleaving, reads into a held block not counted, and are at rest exactly when both are gone |
| QueueProtocol.ShutdownCompletes | src/queue.c:60-143 | however the threads were interleaved since finalize, both can be brought to their end within that bound, and a consumer still in its loop is then told to shut down |
| QueueProtocol.ProducerFinalizeDrains | src/queue.c:113-117 | if the producer finalized, the consumer is told to shut down only when everything committed was popped |
| QueueProtocol.DrainExactly | src/queue.c:61-63 | from the state that finalize leaves, with the consumer in its loop: in all continuations a consumer that is told to shut down has popped everything committed, if and only if the producer is not past its check of `active` |
| QueueProtocol.FinalizeDrainsExactly | src/queue.c:132-143 | the same condition, read in the state in which a thread is about to clear `active` under the lock |
| QueueProtocol.EarlyFinalizeLosesABlock | src/worker.c:364-368 | a schedule in which an outside finalize leaves a block with any bytes committed and unpopped |
| Completion.EarlyFinalizeLosesInput | src/worker.c:364-368 | for every input that is not empty, a run of the whole program in which an outside finalize makes it commit the first block of the input and write nothing |
| LineSplitting.LinesPartition | src/writer.c:34-34 | the reference lines and the open line cut the stream at its newlines and nowhere else |
| LineSplitting.ChopPieces | src/writer.c:40-45 | the pieces of a line rejoin to it, all but the last have exactly `chunk_size` bytes, none has more |
| LineSplitting.MachineMeaning | src/writer.c:33-75 | after any blocks, records and overflow are the chopped lines and the chopped open line, with one empty record after exactly those lines that are a positive multiple of the chunk size and whose last byte ended a short block |
| LineSplitting.MachineConserves | src/writer.c:33-75 | records and overflow concatenate to the stream without newlines; none has a newline or more than `chunk_size` bytes |
| LineSplitting.SameRecords | src/writer.c:45-65 | two sets of short block ends give the same records if and only if they agree at the ends of the lines that are a positive multiple of the chunk size |
| LineSplitting.WriterIsSplitAndChop | src/writer.c:33-75 | if no line is a positive multiple of the chunk size, records and overflow are exactly the split and chopped stream |
| LineSplitting.BoundaryIndependence | src/writer.c:33-75 | all ways to cut the stream into blocks give the same output if and only if the chunk size is 1 or no line, complete or open, is a positive multiple of it |
| Writer.Writer.Emit | src/writer.c:46-51 | a record is encoded without truncation and handed to the short-write loop in the vector that earlier writes left; it is written to its end, or its write stops after a part of what the vector shows |
| Writer.Writer.ContinueLine | src/writer.c:36-57 | an iteration with bytes in the overflow keeps the loop in step with the byte machine, and advances or empties the overflow |
| Writer.Writer.StartLine | src/writer.c:59-74 | an iteration with an empty overflow keeps the loop in step with the byte machine and advances |
| Writer.Writer.WriteBlock | src/writer.c:31-76 | the inner loop terminates and does to records and overflow what the byte machine does to the block; after a failed write the records are those before the one it failed on |
| Writer.Writer.Produce | src/writer.c:26-77 | over all popped blocks the records written are those of the byte machine and the output is what the vector shows for them, write by write; after a failed write they are the records before it, and the output has a part of the next |
| JsonString.SizeTableExact | src/json.c:24-37 | the size table gives the length of the escape of every byte |
| JsonString.EscapeBytes | src/json.c:24-37 | the escape of every byte, in bytes: short for 8, 9, 10, 12, 13, 34 and 92, `\u00` and two lowercase digits for other control bytes and 127, itself otherwise |
| JsonString.EncodingShape | src/json.c:201-223 | an encoding has at most six bytes for one and no byte below 0x20 |
| JsonString.StringRoundTrip | src/json.c:194-226 | reading an encoding by section 7 of RFC 8259 returns the input and stops at the quote that follows it |
| JsonString.FitIsLongest | src/json.c:205-207 | the encoder stops after the longest prefix whose whole encoding fits |
| JsonString.AllFits | src/writer.c:16-16 | a destination of six bytes for each source byte never truncates |
| JsonString.EncodeValue | src/json.c:194-226 | the destination receives the full encoding of the longest prefix that fits and is unchanged elsewhere; the result is its length |
| JsonNumber.AutomatonExact | src/json.c:39-131 | the automaton accepts exactly the numbers of section 6 of RFC 8259 |
| JsonNumber.IsNumericLiteral | src/json.c:39-131 | the loop over the automaton decides that grammar for strings of every length |
| JsonNumber.IsStringLiteral | src/json.c:133-151 | a value is quoted exactly when it is not `true`, `false`, `null` or a number |
| JsonNumber.GrammarBytes | src/json.c:39-150 | the digits, signs, letters and literals, in bytes |
| JsonPrefix.PrefixSize | src/json.c:155-161 | the precomputed size is 64 bytes and the bound of each member |
| JsonPrefix.PrefixBytes | src/json.c:153-190 | the text around keys and values, in bytes, and the bound of a member in numbers |
| JsonPrefix.PrefixEncoder | src/json.c:153-190 | the prefix text is written within the precomputed size, terminating zero included, with no value truncated |
| JsonPrefix.PrefixParsesBack | src/json.c:153-190 | with an opening quote after it, prefix, value and postfix parse as an object with the fields in order, verbatim exactly when they are literals, and the message |
| Framing.FrameHasOneNewline | src/json.c:228-231 | the only newline of a written record is its last byte |
| Framing.PostfixBytes | src/json.c:228-231 | the postfix, in bytes |
| Framing.OutputDeterminesRecords | src/writer.c:46-47 | for all fields and records, splitting the output at newlines, stripping prefix and postfix and unescaping returns the records |
| JsonText.JsonEndsOutside | src/json.c:154-187 | every JSON text by sections 2 to 7 of RFC 8259, at any depth and with any white space, ends outside its strings |
| JsonText.NoLineIsJson | src/json.c:154-187 | no written line is a JSON text, for any fields and record, and the parser of `JsonPrefix` refuses it |
| JsonText.QuotedLineIsJson | src/json.c:154-187 | with the missing quote every written line is a JSON text |
| JsonText.ParsedIsJson | src/json.c:153-190 | the parser that reads the prefix back accepts only JSON texts |
| Fields.IsValidKey | src/field.c:11-21 | the scan accepts exactly the keys of letters, digits, `-` and `_` |
| Fields.ParseExact | src/field.c:37-58 | an argument yields a field if and only if it is key, `=` and value, with a valid key of 1 to 32 bytes and a value of 1 to 512 bytes |
| Fields.RefusedExactly | src/field.c:41-55 | an argument with `=` gets the error of its value if and only if its key has a legal length and its value has not, and the error of its key for every other refusal |
| Fields.NoEqualsIsInvalidKey | src/field.c:41-43 | an argument without `=` gets the error of its key |
| Fields.KeyBytes | src/field.c:11-21 | the bytes of keys, and the limits 32 and 512 |
| Fields.CreateField | src/field.c:37-58 | the checks give the field or the error of the first that fails |
| Fields.FieldSetMeaning | src/field.c:68-86 | after any adds the set is the insertion-ordered map of the valid arguments considered before it was full: keys distinct, in order of first insertion, with the last value |
| Fields.AcceptedExactly | src/worker.c:109-121 | the arguments are all accepted if and only if each is a field and comes before the set is full, and the set is then the insertion-ordered map of them all |
| Fields.FirstErrorIs | src/worker.c:280-280 | the error is that of the first refused argument: too many fields if the set is full before it, else its own |
| Fields.FieldsAreValid | src/field.c:68-86 | every stored field has a valid key and value |
| Fields.FullSetIsFinal | src/field.c:69-71 | once full, every add is refused and changes nothing |
| Fields.FieldSet.constructor | src/field.c:60-66 | a new set is empty and has the given capacity |
| Fields.FieldSet.Add | src/field.c:68-86 | an add in place stores, replaces or refuses as the value-level set does |
| VectoredWrite.Consume | src/file.c:21-30 | after a positive count, skipping and editing leave exactly the unsent bytes, and record the cut in the vector |
| VectoredWrite.DoneSendsAll | src/file.c:8-33 | success means that all bytes were sent, and every positive count brings the end nearer |
| VectoredWrite.OutcomeExactly | src/file.c:8-33 | the call succeeds if and only if the kernel takes all bytes before it first refuses, fails if and only if it refuses before, and sends what was taken; interruptions and the division into counts do not matter |
| VectoredWrite.WriteV | src/file.c:5-34 | what is written is the front of the caller's bytes up to the last accepted count; each element of the caller's vector has lost its front up to the last count that cut it, and nothing else |
| VectoredWrite.MovedByCuts | src/file.c:27-30 | an element of the caller's vector is unchanged exactly when no accepted count cut it |
| RecordOutput.ReuseExactly | src/writer.c:22-24 | in every run of writes, the vector left by the records so far gives every later record its frame, whatever the value buffer holds, if and only if no accepted count cut an element |
| RecordOutput.CleanOutput | src/writer.c:46-47 | if no count cut an element before the last of some records, their output is exactly their frames |
| RecordOutput.FramesStay | src/writer.c:46-47 | whatever later counts cut, the output begins with the frames of the records up to the first that is not clean |
| RecordOutput.RecordWriter.Write | src/writer.c:46-47 | for all answers of the kernel, writing one record is a step of a run of writes, or stops after a part of what the vector shows |
| RecordOutput.WriteRecords | src/writer.c:22-24 | for all answers of the kernel, reusing one vector for all records is a run of writes, up to a part of the first record that does not come to its end |
| RecordOutput.OutputSize | src/file.c:27-30 | the output of some records is never longer than their frames, and as long exactly if prefix and postfix were whole for the last of them |
| RecordOutput.CutSpoilsLaterRecords | src/file.c:27-30 | once a count has cut the prefix or the postfix, the output of any records that go on after it is shorter than their frames |
| RecordOutput.CutValueGarbles | src/file.c:27-30 | with one count inside the value, the records AB and C are written without an error as the frames of AB and B, for every prefix |
| Reader.ReaderConserves | src/reader.c:26-82 | in every run the input read is the log, its kept part is the committed blocks and the open one, committed blocks have 1 to `chunk_size` bytes, no read asks for zero bytes, and at the end of input nothing is left uncommitted |
| Reader.NoDropNoLoss | src/reader.c:50-57 | without a drop verdict the committed blocks and the open one are exactly the input read |
| Reader.PauseCommits | src/reader.c:71-76 | from every run, when the input pauses the block is committed if it holds bytes, nothing read is held back, and the reader polls again |
| Reader.EndCommits | src/reader.c:61-66 | from every run, at the end of input the block is committed if it holds bytes and the reader leaves |
| Reader.DataIsKept | src/reader.c:50-57 | from every run, a read into the block appends exactly the next bytes of input; a full block is committed and the next one reserved without polling |
| Reader.DropReadsOn | src/reader.c:44-48 | from every run, told to drop, the reader reads up to a chunk past the queue, keeps none of it and asks for a block again |
| Reader.GrantStartsABlock | src/reader.c:37-40 | from every run, a granted block is emptied and read into next |
| Reader.InterruptRetries | src/reader.c:68-70 | from every run, an interrupted read changes nothing but that a block is asked for if there is none |
| Reader.PollLeadsOn | src/reader.c:27-33 | from every run, the poller is asked again until it is ready, and reading then begins |
| Reader.LeavesEarly | src/reader.c:27-80 | the reader has left with an error or a shutdown if and only if a poll or a read failed, or the queue said shut down, when it asked |
| Reader.EarlyEndKeepsData | src/reader.c:41-80 | leaving early commits nothing |
| Reader.ReadAndCommit | src/reader.c:44-81 | one read and the commit it leads to do what the step machine does, for every answer |
| Reader.Consume | src/reader.c:26-82 | for every sequence of answers of poller, queue and input, the loops leave exactly the commits, the block, the position and the place that the sequence determines |
| Pipeline.StepKeeps | src/worker.c:322-354 | every step of every thread keeps the open block in its slot, the commits, and the output in step with the popped blocks |
| Pipeline.WrittenSoFar | src/writer.c:26-77 | in every reachable state, also after a signal, an outside finalize or a failed write: what was written is the beginning of what the committed blocks give, a proper one after a failed write, and if no line is a positive multiple of the chunk size that is the beginning of the chopped lines of the input, or under the drop policy of what was kept of it |
| Pipeline.CompletedRun | src/reader.c:61-66 | a completed run has read the whole input, and has committed and popped all of it, or under the drop policy all that was kept, in blocks of 1 to `chunk_size` bytes that the writer turned into its output |
| Pipeline.EndToEnd | src/writer.c:26-77 | for every interleaving and all read sizes, if no line is a positive multiple of the chunk size, the records of a completed run are the complete lines, chopped, and all but the last piece of an open last line, of the input, or under the drop policy of what was kept |
| Pipeline.EndToEndExact | src/writer.c:26-77 | without that condition, the records and the overflow are still known exactly from the input and the short block ends |
| Pipeline.WritesMayFail | src/writer.c:46-50 | the write of every record may fail; the writer then leaves with the records before it and never commits the pop |
| Pipeline.EndToEndBytes | src/writer.c:22-86 | in every reachable state and for every run of writes of its records in which no count cut an element before the last, reading the bytes back recovers exactly the first of those records, all of them once completed; a failed write sent a part of the frame of the next one |
| Program.CollectFields | src/worker.c:279-281 | the field arguments give the set, or the error of the first that is refused |
| Program.WriteOutput | src/worker.c:451-482 | refused field arguments give their error and no output; otherwise after every schedule and under all answers of the kernel, the bytes sent are those of a run of writes of all records of the committed blocks, or of those before the first whose write stops; they tell the first of the expected records, and in a completed run the blocks give all of them |
| Pipeline.LossesAreDrops | src/reader.c:44-49 | under either policy at most one read is thrown away for each time a push saw the queue full under its lock, and what was kept is the committed blocks and the open one |
| Completion.CompletesExactly | src/reader.c:26-91 | from every reachable state, under either policy, some continuation completes the run, if and only if no write has failed, no outside thread has finalized and the reader has not left before the end of input |
| Completion.NoLineWaits | src/reader.c:71-76 | from every undisturbed reachable state, with no byte more read, some continuation commits what the reader holds, pops it and writes all its records: no line waits for more input |
| Completion.DropNeverWaits | src/reader.c:35-48 | under the drop policy, from every reachable state with input left, at most six steps of the reader alone make it read on or leave |
| Completion.EveryInputCompletes | src/reader.c:26-91 | for every input, chunk size, capacity and policy some interleaving completes, so the end-to-end theorems apply |

## Left out

- C11 memory orders weaker than sequential consistency, cache-line alignment, and mutex or condition variable failures.
- The wait loops of `jp_queue_push_uncommitted` and `jp_queue_pop_uncommitted` as loops in the heap class: each pass is a method, and waiting and waking are steps of the protocol.
- Poller creation and registration errors (src/reader.c:14-24): they end the reader like a failing poll.
- Allocation, `free` and the integer width of `size_t`: sizes are unbounded naturals.
- `json_size_lut` as 256 literal entries: the table is given by its runs of equal entries.
- Reads past the value buffer: a value entry that was cut and then given a longer value may point past the buffer, where the source's behaviour is undefined; the write then stops with `PastBuffer`.
- Reader.Consume: the answers are any finite sequence, because the source loops as long as its input lives.
- JsonPrefix.PrefixParsesBack: the parser reads flat objects without white space, which is all the prefix contains.
- JsonString.StringRoundTrip: surrogate pairs in `\u` escapes are refused by the string reader; the encoder never writes them.
- UTF-8 validity: a line is chopped at bytes and may be cut inside a character.
- Option parsing, directory creation, thread creation and cancellation, help text, error printing (src/worker.c, src/command.c, src/main.c, src/errno.c, src/config.c).
- File naming and rotation, which the write path does not implement.
