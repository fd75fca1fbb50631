# A verified model of the reactor engine

This project models, in Dafny 4.11, the single-threaded reactor engine of reactio: the
message reader and the message sender of a socket, the queue of deferred commands, the slab
allocator below them, and the runtime that polls sockets and executes commands. It proves what
these parts promise over every run.

| file | models |
|---|---|
| `flat_storage.dfy` | the slab allocator with its intrusive free list |
| `min_heap.dfy` | the hand-written binary heap, as written and repaired |
| `sending.dfy`, `sending_laws.dfy` | what a sender does, and what holds over all its runs |
| `sending_outcomes.dfy` | what each use of a sender comes to, read off the socket's answers, and what holds over runs with failures |
| `staging.dfy`, `staging_shows.dfy` | how far staged writing equals direct sending: exactly which steps part the two, and that a parting can be seen |
| `msg_sender.dfy` | `MsgSender` and `AutoSendBuffer`, whose completions are a linked list threaded through a slab |
| `sender_runs.dfy` | runs of those classes |
| `receiving.dfy`, `receiving_laws.dfy` | what a reader does, and what holds over all its runs |
| `receiving_outcomes.dfy` | which reads and dispatcher calls an event makes and how it ends, read off the answers |
| `msg_reader.dfy` | `MsgReader` with its growing buffer |
| `pingpong.dfy` | the message format of the ping-pong example, and the way from sender to reader |
| `scheduling.dfy` | the clock, and the time arithmetic of deferred commands in 64-bit words |
| `registry.dfy` | handlers, identifiers and poller registrations |
| `commands.dfy` | the command channel |
| `reactor_mgr.dfy`, `sock_events.dfy` | `ReactorMgr` and one batch of socket events |
| `event_laws.dfy` | which handlers an event closes, and what they are told |
| `deferred_queue.dfy` | how heap, slab and the record of executed commands fit together |
| `executing.dfy` | the effect of commands on the handlers |
| `command_laws.dfy` | whom a command reaches and what its completion is told |
| `call_laws.dfy` | which commands one call of `process_events_with` executes |
| `react_runtime.dfy` | `ReactRuntime`: executing commands, deferring them, `process_events_with` |
| `runtime_runs.dfy` | runs of that class |

`dafny verify dfyconfig.toml` checks everything.

## How the model is built

Each of the source's structs that is updated in place is a class here, with the same fields, and
each of its methods is proved against a function of the old state: `MsgSender` against module
`Sending`, where the linked list is a plain queue, `MsgReader` against module `Receiving`, where
the buffer is just the bytes in it, `FlatStorage` against a finite map. The laws are then proved
about those functions, for all runs.

What lies outside is an oracle that is fixed in advance and about which nothing is known. A
socket answers reads and writes from a list of answers that may be any list (after its end it
would block); the bytes that it took are its `wire`. The clock shows `time(n)` at its n-th
reading, for any function `time`, and counts its readings. The operating system's answers to
connect, bind and writes, and the answers of user code, are `replies(n)` for the n-th question,
and the questions are counted. A message dispatcher may answer differently in each call, so it
is a function of the number of the call too. Contracts say which readings and which answers
were used and what follows from them, so a step that did not look at the clock, or ignored an
answer, would not meet them. Only three things are chosen anew each time: the commands that
user code sends, the events that the poller returns, and the number of an unused descriptor.
Completion callbacks are values: for the sender a token that is added to `fired`, for a command
its position among all commands ever accepted.

The sizes of buffers, slabs and counters are natural numbers. Preconditions named `Room` and
similar bounds say that counters fit into a word and slot numbers into half a word.

## Where the source departs from its intent

- `min_heap_pop` sinks the root within all entries but the last and then overwrites the last
  entry (line 359), which is lost. `MinHeaps.MinHeapPop` is that code. The repaired pop,
  `MinHeaps.MinHeapPopIntended`, puts the old last entry into the hole and lets it rise; the
  runtime in `react_runtime.dfy` uses it. `AsWrittenLosesLast` and
  `AsWrittenStaysMatched` say exactly when one pop as written works and what it leaves otherwise;
  `AsWrittenPanics` says that once all deferred commands are due, `process_deferred_queue` with
  that pop reaches its panic if and only if there are at least two of them.
- `min_heap_push` computes `(k - 1) / 2` at `k == 0`, which wraps in a release build and traps in
  a debug build. The model wraps; the loop's guard ignores the result. `PushTrapsExactly`: it
  happens if and only if the heap was not empty and the new time is earlier than all in it.
- `send_queued` compares with the bytes sent before the current write (line 1204), so completions
  run one write late and may still be waiting when the buffer is empty. The parameter `Timing`
  is `AsWritten` for that and `Intended` for the comparison with the bytes sent including this
  write. Everything about bytes holds for both. As written, no write runs a completion whose last
  byte it sends itself (`NoRunRunsItsOwn`), and a run is on time in every state if and only if no
  write of it sends the last byte that some completion waits for (`RunOnTimeExactly`). As written, a staged and a direct sender stay
  alike exactly as long as no step parts them (`Parts` in `staging.dfy`): no message is sent in
  part from a staging buffer while old completions wait, and no write drains the buffer and leaves
  completions waiting while the byte counters differ. `PartingShows` turns every parting into a
  run in which a completion runs in the one and not in the other.
- A send from a staging buffer that fails leaves the whole message in the buffer, though a part of it
  may have gone out; a direct send that fails leaves nothing behind but what has gone out. `StagedExactly`
  and `DirectExactly` say what each leaves, `StreamOfAnyRun` what wire and buffer then hold.
- Line 1210 can underflow, which stops a debug build. The model wraps as a release build does;
  `TrimKeepsEnd` shows that the end of the message is kept. It underflows if and only if the first
  waiting record starts beyond the limit (`UnderflowsExactly`, over runs `UnderflowsInRunExactly`),
  as when a byte is queued without a completion, another with one, and one byte is sent
  (`UnderflowShows`).
- A stream that is told of a chance to write which it had not asked for, and that still has
  bytes to write afterwards, believes that it is registered for writing and is not, until its
  buffer is empty. `InterestAgreesExactly` gives the exact condition for one event, `AstrayAfter`
  for all streams, and `ChangesAstray` says that nothing else leads a stream there.
- The `ver` of a `ReactorID` is the number of handlers at its creation, and `close_reactor`
  does not compare it in a release build. `ClosesSocket` in `executing.dfy` looks only at the slot.
- The nanoseconds of a time past about the year 2262 do not fit into a word and wrap:
  `OverflowLimit` gives the limit, and `NeverEarlyExactly` says that a time is kept to, at every
  reading of the clock, if and only if it is up to that limit.
- A message body of more than 65535 bytes is cut in its length field; `EncodingsParse` says that
  messages survive if and only if all bodies are short enough.

## Model

| member | source | states |
|---|---|---|
| FlatStorages.FlatStorage.Add | src/flat_storage.rs:45-63 | The key is new, it is the most recently vacated slot or else the next one, the map gains that entry and no other changes; the panic is unreachable |
| FlatStorages.FlatStorage.Remove | src/flat_storage.rs:65-78 | An occupied key is taken out, its value returned and its slot becomes the next to be reused; any other key changes nothing |
| FlatStorages.FlatStorage.Get | src/flat_storage.rs:80-87 | The map's entry, or none for a vacant or unknown key |
| FlatStorages.FlatStorage.Set | src/flat_storage.rs:88-95 | Writing through the reference changes that entry only and no link |
| FlatStorages.FlatStorage.Len | src/flat_storage.rs:32-34 | The number of entries of the map |
| FlatStorages.FlatStorage.CountFree | src/flat_storage.rs:38-40 | The length of the free list |
| FlatStorages.CountIsSize | src/flat_storage.rs:4-8 | `count` is the size of the map |
| FlatStorages.FreeListIsAcyclic | src/flat_storage.rs:45-78 | Following the links from `free` visits every vacant slot exactly once and then ends |
| MinHeaps.MinHeapPush | src/reactor.rs:327-338 | In place, the last entry rises as `SiftUp` says; cells beyond the vector are untouched; the parent's index wraps exactly if the entry has risen to the root |
| MinHeaps.PushTrapsExactly | src/reactor.rs:327-338 | It has, and a debug build traps, if and only if the heap was not empty and the new time is earlier than all in it |
| MinHeaps.PushKeepsHeap | src/reactor.rs:327-338 | Rising restores the heap order and keeps all entries |
| MinHeaps.MinHeapPop | src/reactor.rs:340-360 | The pop as written, in place: sink within all but the last entry, then overwrite the last |
| MinHeaps.AsWrittenLosesLast | src/reactor.rs:340-360 | As written the remaining entries are all but the last; the root was deleted if and only if it equals the last entry |
| MinHeaps.AsWrittenLeavesHole | src/reactor.rs:340-360 | As written, of a heap the old root is left at a leaf and every other pair in order; what is left is a heap exactly if the time above the old root is no later |
| MinHeaps.MinHeapPopIntended | src/reactor.rs:339-360 | The repaired pop, in place |
| MinHeaps.SinkLeavesHole | src/reactor.rs:343-358 | The descent ends with the old root at a leaf and every other pair in order |
| MinHeaps.DeleteMin | src/reactor.rs:339-360 | Repaired: the old root, a smallest entry, is last; the rest is a heap of exactly the other entries |
| MinHeaps.DrainSorts | src/reactor.rs:339-360 | Popping until empty yields all entries once, in order of time |
| Sending.TrySendAll | src/reactor.rs:1058-1092 | When it does not fail, exactly the reported number of bytes has gone to the wire, from the front |
| MsgSenders.MsgSender.TrySendAll | src/reactor.rs:1058-1092 | The loop over writes does what that function says, for every behaviour of the socket |
| SendingOutcomes.TrySendAllExactly | src/reactor.rs:1058-1092 | It fails if and only if the socket, read off its list of answers, fails or interrupts before the message is out; failed or not, exactly the bytes that the socket was ready to take are on the wire, and it was asked no more often |
| MsgSenders.MsgSender.SendOrQue | src/reactor.rs:1097-1138 | Result, buffer, completion queue, completions run and socket are those of the queue model; it fails exactly if the socket does before the message is out, and a failed send leaves the sender as it was, its completion neither run nor queued |
| SendingOutcomes.DirectExactly | src/reactor.rs:1097-1138 | Result, wire, buffer, counter, completions run and queued, from the socket's answers, in all cases |
| SendingOutcomes.StagedExactly | src/reactor.rs:1267-1311 | The same for a send from a staging buffer: a failed one breaks the sender, leaves the message in its buffer, and runs and queues nothing |
| SendingOutcomes.WritableExactly | src/reactor.rs:1167-1247 | The same for one write of what is queued: it fails exactly on a failure or when nothing is taken, and then only marks the sender broken; otherwise the longest due prefix of the completions is run |
| SendingOutcomes.CompletionsOfAnyRun | src/reactor.rs:1096-1311 | Over every run of a new sender, failures included: the completion of a failed use is neither run nor waiting, every other one is run or waits, exactly once, and none has run before its last byte is on the wire |
| SendingOutcomes.StreamOfAnyRun | src/reactor.rs:1097-1311 | Over every run, failures included, wire and buffer together grow by exactly what the uses add, in order |
| MsgSenders.MsgSender.QueueMsgCompletion | src/reactor.rs:1141-1163 | Linking a record into the slab appends one completion, at the end of the buffer, to the queue |
| MsgSenders.MsgSender.SendQueued | src/reactor.rs:1167-1229 | One write, and the completions due by then are run; with either timing |
| MsgSenders.MsgSender.NotifySent | src/reactor.rs:1199-1227 | The loop pops exactly the longest due prefix of the queue, in order; the invalid-id panic is unreachable |
| MsgSenders.MsgSender.MoveBufFrontAfterSend | src/reactor.rs:1231-1247 | The sent bytes leave the front; the counter advances, or restarts when the buffer is empty |
| MsgSenders.UnderflowsExactly | src/reactor.rs:1204-1211 | For a record that is not due, a subtraction underflows if and only if the record starts beyond the limit |
| SenderRuns.UnderflowsInRunExactly | src/reactor.rs:1199-1211 | Over a run, line 1210 has underflowed if and only if some write that sent bytes found the first record that was not due to start beyond the limit |
| SenderRuns.UnderflowShows | src/reactor.rs:1141-1211 | A run in which it does: a byte queued without a completion, one with, a write of one byte |
| SenderRuns.RecordsCoverMessages | src/reactor.rs:1097-1163 | The record of a queued message starts where its queued bytes start in the stream and ends where they end |
| MsgSenders.TrimKeepsEnd | src/reactor.rs:1210-1211 | The wrapping subtractions keep the end of the message and cut off what is before the limit |
| MsgSenders.TwoChainsShareTheSlots | src/reactor.rs:1015-1029 | The completion chain and the free list are acyclic, share no slot, use every slot; the first ends at lastPendingId; both ids are MAX exactly when nothing is pending |
| MsgSenders.AutoSendBuffer.Write | src/reactor.rs:1319-1322 | Appends to the staged bytes; the sender's own state does not change |
| MsgSenders.AutoSendBuffer.Clear | src/reactor.rs:1257-1259 | Drops the staged bytes and nothing else |
| MsgSenders.AutoSendBuffer.GetWritten | src/reactor.rs:1260-1266 | The staged bytes and their number |
| MsgSenders.AutoSendBuffer.Send | src/reactor.rs:1267-1311 | Sends or queues the staged bytes as the queue model says; it fails exactly if the socket does before they are out, and then the sender is broken and holds them, and nothing is run or queued |
| SenderRuns.Stage | src/reactor.rs:1257-1322 | Any writes and clears leave staged exactly what `Typed` says, and the sender as it was |
| SenderRuns.RunSender | src/reactor.rs:1097-1327 | Any sequence of direct sends, staged sends and writable events on the class does what the run of the queue model does, and line 1210 underflows exactly where that model says |
| SenderRuns.RunNewSender | src/reactor.rs:1045-1327 | Any run of a new sender: failed uses leave no completion run or waiting, all others are run or wait, once, and none has run early; if no use fails, wire and buffer are the messages and, with the intended timing, no completion is late |
| MsgSenders.AutoSendBuffer.constructor | src/reactor.rs:113-120 | A new AutoSendBuffer has nothing staged on the sender as it is |
| SendingLaws.ByteStreamIsConserved | src/reactor.rs:1097-1247 | Over every error-free run, wire and buffer together grow by exactly the messages sent, in order |
| SendingLaws.FreshStream | src/reactor.rs:1045-1055 | For a new sender, wire followed by buffer is the concatenation of all messages |
| SendingLaws.CompletionsAreNeverEarly | src/reactor.rs:1096-1229 | With either timing: each completion has run at most once, is waiting if it has not run, and never runs before its message's last byte is on the wire |
| SendingLaws.QueueIsFifo | src/reactor.rs:1141-1227 | Completions leave the queue in the order in which they entered it |
| SendingLaws.CompletionsArePrompt | src/reactor.rs:1199-1247 | Intended timing: a completion has run exactly when its message's last byte is on the wire; an empty buffer leaves none waiting and resets the counter |
| SendingLaws.DrainAssertsAsWritten | src/reactor.rs:1236-1241 | As written, a write that empties the buffer meets the debug assertions if and only if no completion waited for a byte still in it |
| SendingLaws.RunOnTimeExactly | src/reactor.rs:1199-1247 | As written, an error-free run has in no state a completion waiting whose last byte is on the wire, if and only if no write of it sends the last byte that the first waiting completion waits for |
| SendingLaws.CompletionsOnTimeAsWritten | src/reactor.rs:1199-1247 | In such a run of a new sender each completion has run exactly when its message's last byte is on the wire |
| SendingLaws.NoRunRunsItsOwn | src/reactor.rs:1199-1229 | As written, every write of every error-free run only runs completions whose last byte was on the wire before it |
| SendingLaws.AsWrittenIsLate | src/reactor.rs:1200-1242 | A run in which the assertions fail and a later message's completion overtakes an earlier one; not so when intended |
| Staging.StagingKeepsBytes | src/reactor.rs:1267-1311 | Over every error-free run, with either timing and no further condition, staging changes nothing about results, wire, buffer and the completions passed in |
| Staging.WriteStaysShiftedExactly | src/reactor.rs:1167-1247 | A write that leaves bytes keeps two senders at their distance; one that drains the buffer does if and only if the counters agree or all waiting completions are due |
| Staging.StepStaysShiftedExactly | src/reactor.rs:1097-1311 | After one use, staged and direct sender look alike, and their counters and ends are at one distance if and only if the use does not part them, which is read off the state before it |
| Staging.RunStaysShiftedExactly | src/reactor.rs:1267-1311 | Side by side, staged and direct run are at one distance in every state if and only if no step of the staged run parts them |
| Staging.StagedEqualsDirect | src/reactor.rs:1250-1311 | Staging makes no visible difference over a run of which no step parts the two |
| Staging.StagedEqualsDirectIntended | src/reactor.rs:1250-1311 | With the intended timing no step ever does, so staging never makes a visible difference |
| StagingShows.PartingShows | src/reactor.rs:1200-1311 | As written, after a step that parts the two, at most three further uses, the same for both and without staging, run a completion in one and not in the other |
| StagingShows.StagingShowsAsWritten | src/reactor.rs:1200-1247 | Such a run of a new sender, in which staged and direct sending run a completion at different times |
| Receiving.SockRead | src/reactor.rs:1437-1437 | A read takes bytes from the front of what has arrived, never more than there is room for |
| MsgReaders.MsgReader.constructor | src/reactor.rs:1344-1353 | A new reader has an empty buffer of the reserved size |
| MsgReaders.MsgReader.BytesInBuffer | src/reactor.rs:1355-1357 | The number of unprocessed bytes |
| MsgReaders.MsgReader.GrowBuffer | src/reactor.rs:1383-1388 | The buffer grows to the larger of need and double; with a reserve the next read has room |
| MsgReaders.MsgReader.TryReadAll | src/reactor.rs:1426-1467 | The read loop does what `Receiving.ReadAll` says and terminates |
| MsgReaders.MsgReader.CallDispatcher | src/reactor.rs:1488-1519 | One turn of the dispatch loop: the dispatcher's writes stay in the buffer, a message is dropped, an expectation is kept, or all is cleared; the dispatcher may answer differently each time |
| MsgReaders.MsgReader.MoveFront | src/reactor.rs:1522-1527 | Compaction keeps the unprocessed bytes |
| MsgReaders.MsgReader.TryDispatchAll | src/reactor.rs:1471-1529 | The dispatch loop does what `Receiving.Dispatch` says, for any lawful dispatcher, and leaves the window at the front |
| MsgReaders.MsgReader.TryReadFastDispatch | src/reactor.rs:1367-1422 | Strategy 1 does what `Receiving.FastDispatch` says and terminates |
| MsgReaders.MsgReader.TryReadFastRead | src/reactor.rs:1532-1549 | Strategy 2 does what `Receiving.FastRead` says, dispatching even after a read error, with result and state as in `FastReadOutcome` |
| ReceivingOutcomes.DispatchOutcome | src/reactor.rs:1471-1529 | Every call of the dispatcher with its arguments: the window, the new bytes, the carried size, then what follows each dropped message; when it stops, and what it leaves |
| ReceivingOutcomes.FastReadOutcome | src/reactor.rs:1532-1549 | Strategy 2 reads while the buffer is filled, then dispatches all with the number of bytes read as new; it ends with the peer's close exactly if the last read was at the end of the stream, with a socket error exactly if it failed, and otherwise as the dispatcher says |
| ReceivingOutcomes.FastDispatchOutcome | src/reactor.rs:1367-1422 | Strategy 1 dispatches after each read, with the number of bytes read as new, and reads on while the buffer is filled and nothing refused; it ends by its last read in the same way |
| ReceivingOutcomes.EventEnds | src/reactor.rs:1358-1549 | Both strategies: closed by the peer exactly if the last read was at the end of the stream, a socket error exactly if it failed |
| ReceivingLaws.ParseLosesNothing | src/reactor.rs:1471-1529 | Parsing a stream cuts it up without losing, repeating or moving a byte |
| ReceivingLaws.ParseResumes | src/reactor.rs:1471-1529 | With a prefix-stable framing, parsing may stop anywhere and resume on the rest |
| ReceivingLaws.DispatchParses | src/reactor.rs:1471-1529 | One dispatch call drops the messages of the buffer's parse, leaves its rest, and expects more than is left |
| ReceivingLaws.FastDispatchSyncs | src/reactor.rs:1367-1422 | Strategy 1 keeps the reader in step with the stream that it has read |
| ReceivingLaws.FastReadSyncs | src/reactor.rs:1532-1549 | Strategy 2 keeps the reader in step with the stream that it has read |
| ReceivingLaws.ChunkingInvariance | src/reactor.rs:1367-1549 | However the stream arrives and is read, dispatched messages and leftover bytes are those of parsing at once what has been read |
| ReceivingLaws.StrategiesAgree | src/reactor.rs:1365-1549 | Two readers that have read equally much of the same stream agree on messages and leftover, whatever strategies they mix |
| ReceivingLaws.GrowsTwofold | src/reactor.rs:1383-1388 | The buffer grows exactly if there is too little room, and then twofold unless that too is too little |
| ReceivingLaws.RoomBeforeRead | src/reactor.rs:1383-1388 | Before each read there is room for at least the reserve |
| ReceivingLaws.EventBounded | src/reactor.rs:1378-1388 | One event, before each of its reads and after it, with any lawful dispatcher: the buffer does not exceed twice the peak fill plus the reserve |
| ReceivingLaws.RunIsBounded | src/reactor.rs:1378-1388 | The same before every read of every run, with any lawful dispatcher |
| ReceivingLaws.DispatchExpectsMore | src/reactor.rs:1483-1513 | A dispatcher that keeps its promise re-establishes the assertion on the decoded size |
| ReceivingLaws.RunKeepsExpecting | src/reactor.rs:1379-1381 | With such a dispatcher the assertion holds whenever any run comes to it |
| ReceivingLaws.EveryReadIsSafe | src/reactor.rs:1344-1388 | Both, for a new reader of any reserve |
| Pingpong.EncodeMsg | examples/example/pingpong.rs:200-211 | The buffer filled in place is length, time and body, each at its place |
| Pingpong.DecodeGivesBack | examples/example/pingpong.rs:94-117 | What is decoded from an encoding is the message, body and time, if and only if its body has at most 65535 bytes; the body is there in any case |
| Pingpong.StampsTheTime | examples/example/pingpong.rs:93-140 | A whole message is dropped, and the bytes that are echoed are the same message with the present time |
| Pingpong.PingFrameIsStable | examples/example/pingpong.rs:93-105 | The header framing is prefix-stable |
| Pingpong.PingDispatcherFollows | examples/example/pingpong.rs:86-148 | The handler follows that framing, although it overwrites the time in the buffer, each time with another one |
| Pingpong.EncodingsParse | examples/example/pingpong.rs:200-215 | Encoded messages parse back to exactly themselves if and only if every body has at most 65535 bytes |
| Pingpong.SenderToReader | examples/example/pingpong.rs:86-215 | Through any partial writes and any reads, whatever the handler's clock shows, the reader dispatches the first of the messages sent, body for body and with their times, and all of them once everything is through |
| Scheduling.OverflowLimit | src/reactor.rs:876-879 | The time computation is exact if and only if the millisecond is at most (2^63 - 1 - 500000) / 10^6 |
| Scheduling.SchedulingBound | src/reactor.rs:834-879 | Up to the limit, a command for time t may run exactly from half a millisecond into t's millisecond, so never before t - 499999 ns and always from t + 500000 ns |
| Scheduling.NeverEarlyExactly | src/reactor.rs:834-879 | At every reading that the clock can give, a command for time t never runs before t - 499999 ns if and only if t's millisecond is up to the limit |
| Scheduling.SchedulingBoundIsTight | src/reactor.rs:834-879 | The bound of 499999 ns is reached |
| Scheduling.PastTheLimitIsDueAtOnce | src/reactor.rs:876-879 | The first millisecond past the limit counts as due at once |
| Scheduling.DueIsMonotone | src/reactor.rs:856-860 | Below the limit, when the earliest time is not due, no later one is |
| Registry.KeyRoundTrip | src/reactor.rs:416-427 | An identifier survives the way through an event key |
| Registry.KeyLayout | src/reactor.rs:416-427 | The slot is the lower half of the key, `ver` the upper half |
| Registry.IdRoundTrip | src/reactor.rs:416-427 | An event key survives the way through an identifier |
| Registry.LiveIdsAreDistinct | src/reactor.rs:466-474 | Live handlers have distinct identifiers, keys and sockets, none of them invalid |
| Registry.KeyNamesHandler | src/reactor.rs:673-682 | A registered key leads to the live handler with that very identifier |
| Registry.RegistrationsMatchHandlers | src/reactor.rs:450-555 | There are as many registrations as live handlers |
| Commands.Channel.SendCmd | src/reactor.rs:218-255 | Exactly the commands that pass the check are accepted, at the end of the channel: a connect or listen only with the invalid identifier, a user's command only with another one, a close always |
| Commands.Channel.TryRecv | src/reactor.rs:822-831 | Takes the oldest command, or finds the channel empty, whatever arrives in between |
| ReactorMgrs.ReactorMgr.constructor | src/reactor.rs:436-445 | A new manager has no handlers, no registrations and an empty channel |
| ReactorMgrs.ReactorMgr.Len | src/reactor.rs:447-449 | The number of live handlers and of registrations |
| ReactorMgrs.ReactorMgr.AddStream | src/reactor.rs:450-492 | A new slot, its identifier of slot and new count, registered for reading under it; the stream count stays exact; the panic is unreachable |
| ReactorMgrs.ReactorMgr.AddListener | src/reactor.rs:494-525 | The same for a listener, which is not counted as a stream |
| ReactorMgrs.ReactorMgr.CloseReactor | src/reactor.rs:529-555 | True exactly if the slot was occupied; then handler and registration are gone and the close callback was called |
| ReactorMgrs.ReactorMgr.Connect | src/reactor.rs:763-792 | A new stream is told that it is connected and stays exactly if it agrees; otherwise everything is as before |
| ReactorMgrs.ReactorMgr.StartConnect | src/reactor.rs:577-603 | The system's answer decides; a failed connect changes nothing; otherwise a stream is added and registered for reading, or closed again if it refuses and the invalid identifier returned |
| ReactorMgrs.ReactorMgr.StartListen | src/reactor.rs:558-575 | The system's answer decides; a failed bind changes nothing; otherwise one listener is added, registered for reading and told |
| ReactorMgrs.ReactorMgr.Command | src/reactor.rs:942-950 | on_command may only add to the send buffer; interest and registration stay |
| SockEvents.FlushingTakesBytes | src/reactor.rs:1167-1197 | send_queued fails exactly when it marks the sender broken, and otherwise only takes bytes out of the buffer |
| SockEvents.SendingAddsBytes | src/reactor.rs:1097-1311 | Sending, direct or staged, never shortens the buffer; only a failed staged send marks the sender broken |
| SockEvents.ServeStream | src/reactor.rs:704-731 | A stream flushes if writable with bytes queued, reads if readable, and gives up exactly on a failed send or its own wish (from the answers alone: `StreamFate`) |
| SockEvents.SettleInterest | src/reactor.rs:732-755 | Afterwards the stream wants to write exactly if it has bytes, and the poller is told |
| SockEvents.HandleStream | src/reactor.rs:704-811 | The whole effect of an event on a stream, given the answers of socket and reactor: all handlers, all registrations, calls, closing |
| EventLaws.EventDecides | src/reactor.rs:683-811 | From the event and the answers alone: a stream is closed, deregistered and told so once if it is broken, its write fails, its reactor refuses or breaks it, or the event is an error or interrupt, and stays otherwise; a listener is closed exactly by an event about writing, an error or an interrupt unless it keeps a connection |
| EventLaws.BatchDecides | src/reactor.rs:663-815 | In a batch each event finds its handler as it was before the batch and decides its fate like this, and no later event changes that |
| SockEvents.HandleAccept | src/reactor.rs:683-811 | The whole effect of an event on a listener, with all registrations, where an accepted connection takes precedence over closing |
| SockEvents.HandleEvent | src/reactor.rs:673-812 | One turn of the event loop, including a slot that is empty |
| SockEvents.InterestAgreesExactly | src/reactor.rs:706-755 | Whatever they were before, interest and registration agree after an event that the stream survives if and only if it has nothing to write, or was polled for writing, or neither believed so nor was told of a chance to write |
| SockEvents.AstrayAfter | src/reactor.rs:673-812 | One event decides about the agreement of its own stream as just said, and about no other stream; new streams agree |
| SockEvents.HandledAstray | src/reactor.rs:663-815 | After a batch, a stream disagrees only if it did before or was told of a chance to write that it was not polled for when the poller returned |
| ReactRuntimes.ChangesAstray | src/reactor.rs:628-635 | The same over a whole call of process_events_with, whatever commands do in it |
| SockEvents.OthersStayMet | src/reactor.rs:673-812 | Handling one event leaves every other polled handler in its slot |
| SockEvents.ProcessSockEvents | src/reactor.rs:663-815 | Each event of a batch reaches the handler with the identifier that was polled, despite closes, accepts and reuse of slots; the state changes by exactly the outcomes of the events, one after the other |
| DeferredQueues.MatchedIsBijection | src/reactor.rs:308-309 | The heap's slots are exactly the occupied ones |
| DeferredQueues.MatchedPush | src/reactor.rs:843-845 | Deferring a command keeps heap and slab matched |
| DeferredQueues.MatchedPop | src/reactor.rs:861-865 | Taking the earliest command keeps them matched and leaves only later times |
| DeferredQueues.AsWrittenStaysMatched | src/reactor.rs:861-869 | With the pop as written they stay matched if and only if it was the only command; otherwise a time without a command remains |
| DeferredQueues.AsWrittenPanics | src/reactor.rs:856-872 | With the pop as written, once everything deferred is due at every reading, the loop reaches its panic if and only if at least two commands are deferred |
| DeferredQueues.EachCommandInOnePlace | src/reactor.rs:818-872 | Each command taken from the channel is either stored or executed, never both, and executed once |
| CommandLaws.UserCommandFate | src/reactor.rs:920-974 | A user's command reaches the stream alive under exactly its identifier and no other handler; without one nothing happens and its completion is told so |
| CommandLaws.ConnectFate | src/reactor.rs:884-898 | Succeeds exactly if the system says so, with a new registered stream, or one that refused and is gone |
| CommandLaws.ListenFate | src/reactor.rs:899-909 | Succeeds exactly if the system says so, with a new registered listener |
| CommandLaws.CloseFate | src/reactor.rs:910-919 | Succeeds exactly if the slot is occupied, and empties it |
| CommandLaws.CarriedTellsEffect | src/reactor.rs:881-975 | In any sequence of commands, each completion is told of success exactly if its command has taken effect, and otherwise nothing has changed |
| CommandLaws.OnlyLiveStreamsAreCommanded | src/reactor.rs:923-969 | Over any sequence of commands, whenever a stream is given a command, that is a user's command for exactly its identifier, and just before a stream was alive under it |
| Executing.CarriedThrough | src/reactor.rs:881-975 | Performing one sequence of commands and then another is performing both in order |
| ReactRuntimes.ReactRuntime.constructor | src/reactor.rs:612-621 | A new runtime is consistent; slabs, heap, channel and registrations are empty and the clock has not been read |
| ReactRuntimes.ReactRuntime.UserCommand | src/reactor.rs:920-974 | As `UserCommandFate` says, only a live stream with that very identifier gets the command; all other cases complete with an error; the panic is unreachable |
| ReactRuntimes.ReactRuntime.CarryOut | src/reactor.rs:884-919 | Connect, listen and close have the effect on handlers and registrations, and the result, that the next answers from outside call for |
| ReactRuntimes.ReactRuntime.ExecuteImmediateCmd | src/reactor.rs:881-975 | Every command has its effect on handlers and registrations, and its completion is called exactly once with its result |
| ReactRuntimes.ReactRuntime.PushTime | src/reactor.rs:844-845 | Pushing a time, growing the vector if needed, inserts it into the heap |
| ReactRuntimes.ReactRuntime.Defer | src/reactor.rs:843-846 | A command that is not due is stored under a new slot and its time is in the heap |
| ReactRuntimes.ReactRuntime.PopTime | src/reactor.rs:861-869 | The earliest command comes out of heap and slab; the panic is unreachable |
| ReactRuntimes.ReactRuntime.ProcessDeferredQueue | src/reactor.rs:856-872 | The clock is read once per turn and each command runs because its time is due at that very reading, in order of times; it ends when nothing deferred is due at the last reading, or nothing is deferred; the handlers change by exactly these commands |
| ReactRuntimes.ReactRuntime.HandleReceived | src/reactor.rs:834-850 | A received command without a time runs now; for one with a time the clock is read, and it runs now exactly if it is due at that reading, and is stored otherwise |
| ReactRuntimes.ReactRuntime.ProcessCommandQueue | src/reactor.rs:818-853 | At most the given number is taken, in the channel's order; with one clock reading for each command that has a time, exactly those that may run at their reading are executed, in that order; it stops early only on an empty channel |
| ReactRuntimes.ReactRuntime.ProcessCommands | src/reactor.rs:631-632 | The executions of one call are first those of the deferred commands that have left the store, the earliest first and none later than any that is left, one clock reading each, until none left is due at the last reading; and then exactly those of the received commands that may start at their readings. The handlers change by these commands in this order and by nothing else |
| ReactRuntimes.ReactRuntime.ProcessEventsWith | src/reactor.rs:628-635 | The handlers change by the events, one by one, and then by the commands of such a call; the result is false exactly when there was no event and no command, nothing is deferred and no handler lives, and the channel was then found empty; slabs grow by at most one slot per event and command |
| CallLaws.StartsAreDue | src/reactor.rs:818-853 | Of the received commands exactly those without a time or due at their own reading start at once, in the order received |
| CallLaws.CallDecides | src/reactor.rs:628-635 | In one call a received command is executed exactly if it is due when received and is deferred otherwise; a deferred command in range that stays due while they are looked at is executed |
| CallLaws.CallHasOwnReadings | src/reactor.rs:834-872 | Each execution of a command with a time has a reading of the clock to itself, later than those of the executions before it |
| ReactRuntimes.ReactRuntime.CountDeferredQueue | src/reactor.rs:642-644 | The number of stored commands is the length of the heap |
| ReactRuntimes.CommandsAreConserved | src/reactor.rs:818-975 | Between calls every accepted command is in exactly one of channel, store and executed, and executed ones completed once |
| ReactRuntimes.NothingRunsEarly | src/reactor.rs:834-879 | An executed command that had a time was started after a reading of the clock that showed at least its time minus 499999 ns |
| DeferredQueues.NothingStoredIsDue | src/reactor.rs:856-860 | When the earliest time in the heap is not due, no deferred command is, times past the limit apart |
| RuntimeRuns.Serve | src/reactor.rs:622-635 | process_events may be called any number of times, while the slots suffice, with any clock, events, answers and commands; when it returns false no handler lives, nothing is deferred and every command ever accepted was executed exactly once; with a poller that reports only what it was asked for, no stream's interest comes to disagree with its registration |
| RuntimeRuns.ServeNew | src/reactor.rs:612-635 | The same for a new runtime |
| ReactRuntimes.HeapNamesStore | src/reactor.rs:308-309 | In every state between calls the heap names exactly the stored commands, each once |

## Left out

- ReactRuntimes.ReactRuntime.ProcessDeferredQueue: uses the repaired pop; with the pop as written its properties fail as the lemmas named above say.
- ReactRuntimes.ReactRuntime.ProcessEventsWith: the events are given, with distinct registered keys, because the poller itself is not modelled.
- SockEvents.ServeStream: the send buffer of a stream is only its length there and one write of `send_queued` leaves whatever length the socket's answer says (`FlushingTakesBytes`), because the bytes are the subject of the sender's own model.
- SendingLaws.ByteStreamIsConserved: only error-free runs, because after a failure wire and buffer are no longer the messages; `StreamOfAnyRun` says what they are.
- StagingShows.PartingShows: the socket's answers after the parting step are chosen anew, because a given list of answers may end before the difference can show.
- SenderRuns.RunSender: the total of the bytes that its uses write stays below 2^64 and the number of uses below the number of slots.
- RuntimeRuns.Serve: stops when a slab has grown so large that another call might need more slots than there are; slots are reused.
- Scheduling.SchedulingBound: times before the epoch, at which the source panics (an unwrap at lines 837 to 839), are not modelled.
- ReceivingLaws.ChunkingInvariance: the dispatcher never refuses and may write only to the message it drops; what it sends is not part of it.
- Pingpong.PingDispatcherFollows: the handler below its echo limit; its echo, its latency statistics and its debug assertion on single messages are not modelled, and a time stamp is eight given bytes, others in each call.
- ReactorMgrs.ReactorMgr.CloseReactor: stale identifiers are not detected, as in a release build of the source.
- Real sockets, the poller, the kinds of error and their texts, accept that fails, and unwrapped errors of the poller.
- The drop of an AutoSendBuffer, which is one more `Send` without a completion, and its unwrap of an error.
- `send_no_que`, and writing to the public fields of a sender from outside.
- `SimpleIoReactor`, `SimpleIoListener`, `SimpleIoService` and `DefaultTcpListenerHandler`, which only forward calls; `threaded_reactors.rs` and `utils.rs`.
- Exhaustion of memory, of slots (2^32 - 1) or of 64-bit counters, and 32-bit targets.
