# Verification of the NATS client

A Dafny model of the parts of the NATS JavaScript client that carry state from one call or one
message to the next, with proofs of what they promise. `dafny verify dfyconfig.toml` checks all of
it.

JavaScript callbacks run to completion, so a callback or method is one atomic step. Interleaving
happens only where the client awaits, yields, or waits for a timer, a microtask or a message; the
state machines here take their events in any order that these points allow. Where the source updates
fields in place there is a class with those fields, and each method is proved to take the step of
the state machine, so that the theorems about all runs of the machine are about the methods.

## What is modelled

**Wire parser.** `ParserSpec` is a machine that reads one byte at a time and knows nothing of chunks
except that unfinished arguments and payloads are spilled at their end. `Parser` is the class that
keeps indices into the current chunk, jumps over payloads and spills; `Parse` is proved equal to the
machine. `ParserChunks` has chunk independence and the exact condition for it; `ParserFrames` a
printer and the round trip, `ParserRefusals` what is refused. The condition is that a CR inside an
argument stands right before NL: `drop` is set by every CR and never cleared, and bytes are not
appended to a spilled argument while it is a CR. `DenoBuffer` is the buffer that spilled bytes live
in.

**FastIngest.** `FastIngestSpec` is the batch: sequences, cumulative acks, the window, the map of
pending promises. `FastIngestTheorems` follows each promise over all interleavings of calls, acks,
errors and deadlines. A promise of `last` or `end` whose publish fails is put in the map and taken
out again before the call returns; it was never handed out. `FastIngestAnswers` says which event
settles which promise, and with what.

**Readers.** `OrderedConsumer` has what push and pull share and push itself, `OrderedPull` pull,
`PullCredit` the flow control of pull, `DirectConsumer` the direct reader. `Consume` and
`ConsumePushed` drive the classes by whole runs. Ordered pull does not always have the prefix
property, because a pull names the consumer of `_info` and the inbox of the moment it is published:

- With an iterator a pull waits in the queue. If the consumer is replaced meanwhile, and its
  deletion does not take effect, it delivers to the new inbox, and its numbers can match
  (`StaleRunRepeats`).
- With a callback pulls are published at once. But `resetPending`, after missed heartbeats or a
  reconnect, awaits the info of a consumer that may be replaced before the answer comes; it then
  pulls from the old one (`LateInfoRepeats`, again a deletion without effect). If the answer is that
  there is no such consumer, it replaces the consumer once more while the first creation is
  unanswered; that one, answered last, is pulled from (`NotFoundRepeats`, where deletions take
  effect). An `info()` of the user overwrites `_info` in the same way.

`OrderedPullExact` has the exact condition: a callback, and no recovery or info request while a
consumer is being replaced. What a pull lets the server send is counted, so that every run here is
one that `pending.msgs` and the threshold allow.

**Connection.** `DataBuffer`, `Outbound` and `Connection` are outbound buffering and the matching of
PONGs; `SubscriptionDrain` is the drain of one subscription, on top of `QueuedIterator`, whose state
machine is `IteratorSpec`; `ServerPool` and `Servers` are the pool and its gossip; `Reconnect` is
the dial loop. Gossip compares the URLs of a report, as the transport's URL parser writes them, with
the `listen` of the servers in the pool. Where the two are written differently, as with the
WebSocket transport, whose parser puts a protocol in front, every report adds a second entry for
servers the pool already has (`ReportedOnceExactly`). An iterator that is stopped yields the rest of
its batch, but not what was pushed while it was inside that batch: the `close` event of a status
listener is pushed right before a stop, and is lost when the listener is inside the body of its loop
(`PushThenStop`). `removeServer` on a server that is not in the pool removes the last one.

**Text.** `IpText` and `IpParser` are parseIP with the text forms of section 2.2 of RFC 4291, in
both directions; numerals may have more leading zeros than the RFC allows, and `parseIPv4` does not
look at what follows the fourth part, so any text may follow a dotted address. `HeadersSpec` and
`Headers` are message headers, with names as in section 3.1.2 of RFC 822. `toString` prints only a
positive code, so a negative one is lost. `IpCase` has the digits themselves.

## Assumptions about the environment

- A transport delivers what it was given in order. The server of `Outbound` and `SubscriptionDrain`
  reads commands in order and answers each PING it reads with one PONG; nothing else is assumed of
  the time between, and a connection may be lost at any point (in `Outbound`).
- Ids of promises and consumers are fresh, commands in the runs of `Outbound` are not empty,
  sequences of a stream increase.
- The server of `PullCredit` sends and ends no more than the pulls it was sent allow; a status may
  be lost. The server of `DirectConsumer` names the previous reply of the batch in each reply.
- Time does not go backwards, a sleep lasts at least as long as asked, and the time is not 0.
- An array has at most 8 GiB (2^33 - 3 bytes): the constructor of `DenoBuffer` takes no larger one.
- `hostPort` is a function from a URL to its `listen`, or a failure; `shuffle` is any permutation.

## Model

| member | source | states |
|---|---|---|
| `ParserSpec.ProtoParseInt` | core/src/parser.ts:671-684 | a number is at most 15 digits and at most the maximum, or it is -1; what is returned is the value of the numeral |
| `ParserSpec.ProcessMsgArgs` | core/src/parser.ts:549-669 | accepted arguments of MSG and HMSG have a sid, and 0 <= hdr <= size <= 64 MiB |
| `ParserSpec.StepInv` | core/src/parser.ts:110-516 | every byte, in every one of the 31 states, keeps the shape of the spilled argument, the message arguments and the payload counters |
| `ParserSpec.EndChunkInv` | core/src/parser.ts:519-531 | spilling an argument or a payload at the end of a chunk keeps that shape |
| `ParserSpec.RunAllInv` | core/src/parser.ts:106-547 | all events delivered over any chunks are well formed, and the machine is fit to go on |
| `ParserSpec.FeedConcat` | core/src/parser.ts:106-517 | reading one text after another is reading their concatenation, failures included |
| `ParserSpec.FeedPayload` | core/src/parser.ts:226-262 | a payload is taken whole, whatever bytes it has, when its last byte is there |
| `Parser.SplitArgs` | core/src/parser.ts:554-576 | the loop over the arguments finds the maximal runs without blanks, in order |
| `Parser.ParseInt` | core/src/parser.ts:671-684 | the loop over the digits computes the specified number |
| `Parser.Parser.Parse` | core/src/parser.ts:106-532 | one call on a chunk, with indices into the chunk and jumps over payloads, delivers the events and leaves the state of the bytewise machine |
| `Parser.Parser.Spill` | core/src/parser.ts:519-531 | what is left of an argument or a payload moves to the side buffers at the end of a chunk |
| `Parser.Parser.CloneMsgArg` | core/src/parser.ts:534-547 | subject and reply are copied out of the chunk unchanged |
| `Parser.Parser.OnPayloadInChunk` | core/src/parser.ts:226-262 | a payload inside one chunk is delivered without looking at its bytes |
| `ParserRefusals.KeywordExactly` | core/src/parser.ts:110-516 | at the start of a line a text shorter than a keyword is refused exactly when none of MSG, HMSG, PING, PONG, +OK, -ERR and INFO begins with it, in any case and with either blank |
| `ParserRefusals.ArgsExactly` | core/src/parser.ts:549-669 | the arguments of MSG and HMSG are taken exactly when they are 3 or 4 words, or 4 or 5, with a sid and sizes of 1 to 15 digits, a size of at most 64 MiB and a header of at most the size; then each word goes to its field |
| `ParserRefusals.RefusesExactly` | core/src/parser.ts:106-547 | after any chunks, a byte is refused exactly when no keyword goes on with it, or it ends a line of MSG or HMSG whose arguments are not well formed |
| `ParserChunks.ChunkIndependence` | core/src/parser.ts:106-547 | for every stream in which an argument has a CR only right before NL, every cut into chunks gives the same events in the same order, the same failure and the same state as one call on the whole |
| `ParserChunks.StrayCRShows` | core/src/parser.ts:195-201 | an INFO or -ERR argument with any other CR is delivered differently when it is cut after its first byte |
| `ParserChunks.ChunkIndependenceExact` | core/src/parser.ts:489-524 | the line of an INFO or -ERR argument is independent of its chunks exactly when it has no such CR |
| `ParserFrames.ArgsRoundTrip` | core/src/parser.ts:549-669 | the printed arguments of a message are read back as its subject, sid, reply and sizes |
| `ParserFrames.FrameRoundTrip` | core/src/parser.ts:106-684 | any list of INFO, MSG, HMSG, PING, PONG, +OK and -ERR frames, with keywords in any case and any blanks, any payload bytes and any chunks, is read back as exactly those frames, ending in OP_START |
| `ParserFrames.DeliveredMessagesAreSound` | core/src/parser.ts:106-684 | whatever bytes arrive, a delivered message has exactly `size` bytes, its header lies within them, and its numbers are below 2^53 |
| `DenoBuffer.DenoBuffer.constructor` | core/src/denobuffer.ts:79-87 | a buffer starts with a copy of the bytes given, all of them unread |
| `DenoBuffer.DenoBuffer.Reset` | core/src/denobuffer.ts:117-120 | nothing is unread after a reset |
| `DenoBuffer.DenoBuffer.Truncate` | core/src/denobuffer.ts:106-115 | the first n unread bytes stay, and an n out of range changes nothing |
| `DenoBuffer.DenoBuffer.Read` | core/src/denobuffer.ts:144-157 | the oldest unread bytes are handed out, as many as fit; an exhausted buffer gives null, or 0 for an empty destination |
| `DenoBuffer.DenoBuffer.ReadByte` | core/src/denobuffer.ts:136-142 | the oldest unread byte is handed out, or null |
| `DenoBuffer.DenoBuffer.GrowBy` | core/src/denobuffer.ts:172-202 | room for n bytes behind the unread ones, which do not change; the work is paid for by bytes put in; a reallocation leaves capacity at most 5(unread + n) - 2 |
| `DenoBuffer.DenoBuffer.Reallocate` | core/src/denobuffer.ts:192-197 | the capacity after a reallocation, and the unread bytes at its front |
| `DenoBuffer.DenoBuffer.Write` | core/src/denobuffer.ts:167-170 | the bytes are appended to the unread ones, or the buffer would be too large and nothing changes |
| `DenoBuffer.DenoBuffer.Grow` | core/src/denobuffer.ts:204-210 | the next n bytes will fit, and the unread bytes do not change |
| `DenoBuffer.DenoBuffer.ReadFrom` | core/src/denobuffer.ts:212-234 | used before anything was read, it appends everything the reader hands out and counts it, by either way of reading |
| `DenoBuffer.DenoBuffer.ReadDirect` | core/src/denobuffer.ts:227-231 | one pass of the reading appends what was read exactly when `off` is 0; otherwise the unread bytes come out short by `off` |
| `DenoBuffer.DenoBuffer.MovedAtMostSixfold` | core/src/denobuffer.ts:183-197 | slides and reallocations together move at most six bytes for each byte put in |
| `DenoBuffer.PerformAll` | core/src/denobuffer.ts:75-210 | any run of calls hands out and keeps exactly what a plain byte queue does, and keeps the cost bound |
| `FastIngestSpec.ReplyForInjective` | jetstream/src/jsclient.ts:681-683 | reply subjects of different operations or sequences are different |
| `FastIngestTheorems.StepInv` | jetstream/src/jsclient.ts:749-965 | every call, ack, error, ping tick and deadline keeps the account of promises, the keys, the numbering and the window of waiting adds |
| `FastIngestTheorems.KeyIsFresh` | jetstream/src/jsclient.ts:878-963 | the key under which a promise is put in `pending` is not in use there |
| `FastIngestTheorems.HandedOutWaits` | jetstream/src/jsclient.ts:867-965 | a promise returned to the caller is in `pending` when the call returns, once |
| `FastIngestTheorems.SettledExactlyOnce` | jetstream/src/jsclient.ts:718-965 | over every interleaving, a promise handed out is waiting or settled, exactly once, and settled when the batch is closed |
| `FastIngestTheorems.ClosedForGood` | jetstream/src/jsclient.ts:764-788 | once closed, the batch stays closed, `pending` stays empty and `done()` is settled |
| `FastIngestTheorems.NumberedInOrder` | jetstream/src/jsclient.ts:691-946 | the published Start, Append, Final and EOB messages carry exactly the numbers 1 to `seq`, whatever publishes fail; an add that still waits is outside the window |
| `FastIngestTheorems.RunMonotone` | jetstream/src/jsclient.ts:804-848 | `acked` never falls, closed is not undone, and settled promises stay settled |
| `FastIngestTheorems.WindowHolds` | jetstream/src/jsclient.ts:804-946 | when the caller awaits each call and acks are honest, seq - acked never exceeds the largest window so far |
| `FastIngestAnswers.StepFate` | jetstream/src/jsclient.ts:749-848 | every event does with every call that waits what its fate says: an error or deadline rejects, a pub ack commits its own `last` or `end`, rejects another one and settles adds and pings with their own number, a flow ack settles its ping, its add, and the adds the window lets through |
| `FastIngestAnswers.Answered` | jetstream/src/jsclient.ts:718-965 | a promise handed out is settled by the first event that has a fate for it, as that says and in no other way; until then it waits |
| `FastIngestAnswers.CommittedByItsAck` | jetstream/src/jsclient.ts:763-789 | while the batch is open a `last` or `end` waits; the pub ack on its subject resolves it, one on another subject rejects it, and `done()` is resolved by either |
| `FastIngestAnswers.ProgressOfItsOwn` | jetstream/src/jsclient.ts:804-833 | an add or ping that is answered gets its own number and what was acked at that moment, and is rejected only by an error or a deadline |
| `FastIngestAnswers.CallPublishes` | jetstream/src/jsclient.ts:867-946 | on an open batch a call publishes its own kind with the next number, or is rejected and changes nothing; an add returns at once exactly when the window has room |
| `FastIngestAnswers.FirstCall` | jetstream/src/jsclient.ts:867-956 | before the start an add or `last` starts the batch, `end` closes it with nothing sent, and a ping reports 0 |
| `FastIngestAnswers.PingExactly` | jetstream/src/jsclient.ts:948-965 | a ping shares the promise of a ping on the same number, or publishes one of its own and waits, or is rejected |
| `FastIngestAnswers.TickPings` | jetstream/src/jsclient.ts:731-747 | a tick pings with the current number unless a ping is under way or the batch is closed |
| `FastIngestAnswers.ClosedIsSilent` | jetstream/src/jsclient.ts:867-965 | a closed batch rejects every call and publishes nothing more |
| `FastIngestAnswers.DoneSettledBy` | jetstream/src/jsclient.ts:763-848 | which events settle `done()` and the start, and how |
| `FastIngestAnswers.AckedIsHighest` | jetstream/src/jsclient.ts:804-812 | `acked` is the highest ack since the start, whatever acks are lost, late or out of order |
| `FastIngest.FastIngest.RouteMessage` | jetstream/src/jsclient.ts:749-833 | the message handler takes the step of the state machine: errors, terminal acks, gaps and flow acks |
| `FastIngest.FastIngest.SlideWindow` | jetstream/src/jsclient.ts:823-832 | the loop settles exactly the adds that the new window lets through |
| `FastIngest.FastIngest.RouteTerminal` | jetstream/src/jsclient.ts:763-789 | a terminal ack settles everything in `pending` and closes the batch |
| `FastIngest.FastIngest.CloseWith` | jetstream/src/jsclient.ts:839-848 | closing rejects everything in `pending` |
| `FastIngest.FastIngest.Add` | jetstream/src/jsclient.ts:867-890 | the method takes the step of the state machine |
| `FastIngest.FastIngest.Last` | jetstream/src/jsclient.ts:892-916 | the method takes the step of the state machine, a failing publish included |
| `FastIngest.FastIngest.End` | jetstream/src/jsclient.ts:918-946 | the method takes the step of the state machine, before the start included |
| `FastIngest.FastIngest.Ping` | jetstream/src/jsclient.ts:948-965 | the method takes the step of the state machine; pings on one sequence share a promise |
| `FastIngest.FastIngest.PingTimer` | jetstream/src/jsclient.ts:731-747 | a tick of the timer publishes a ping, or does nothing |
| `FastIngest.FastIngest.DeadlineFires` | jetstream/src/jsclient.ts:718-723 | a deadline closes a batch that is open |
| `QueuedIterator.QueuedIterator.Push` | core/src/queued_iterator.ts:62-85 | a push is refused once the iterator is done, and is the last of the accepted ones otherwise; a waiting consumer is woken |
| `QueuedIterator.QueuedIterator.Stop` | core/src/queued_iterator.ts:150-158 | the first stop sets `done` and the error, and wakes a waiting consumer |
| `QueuedIterator.QueuedIterator.Break` | core/src/queued_iterator.ts:143-147 | leaving the loop at a yield ends the iterator |
| `QueuedIterator.QueuedIterator.TakeBatch` | core/src/queued_iterator.ts:102-107 | the queue becomes the batch, and pushes go to a new array |
| `QueuedIterator.QueuedIterator.HandleItem` | core/src/queued_iterator.ts:108-131 | the next item is yielded or its callback runs, and is done only then |
| `QueuedIterator.QueuedIterator.FinishBatch` | core/src/queued_iterator.ts:108-142 | the batch is worked off; the emptied array is used again only when nothing waits |
| `QueuedIterator.QueuedIterator.Resume` | core/src/queued_iterator.ts:87-148 | the generator runs from one suspension to the next as the state machine does |
| `QueuedIterator.Iterate` | core/src/queued_iterator.ts:62-158 | the class driven by any run ends where the state machine does and yields what it yields |
| `IteratorSpec.ResumeRan` | core/src/queued_iterator.ts:87-148 | from one suspension to the next order is kept and at most one value is yielded; a consumer waits only when everything accepted was handled, and for a signal that is unresolved unless the iterator is done |
| `IteratorSpec.YieldedInOrder` | core/src/queued_iterator.ts:62-148 | over every run the consumer gets exactly the values among the first accepted items, in order, and all of them by the time it waits |
| `IteratorSpec.ResumeAlong` | core/src/queued_iterator.ts:99-142 | the generator handles exactly what is ahead of it: the batch up to a callback that throws or leaves an error, and the queue behind it unless the iterator is done |
| `IteratorSpec.DoneRun` | core/src/queued_iterator.ts:99-142 | once done, whatever is pushed or stopped, exactly what is ahead is handled |
| `IteratorSpec.StopHandlesAllExactly` | core/src/queued_iterator.ts:99-158 | after a stop without an error the iterator yields the rest of its batch, and the queue too unless it was inside a batch; so everything accepted is handled exactly when nothing was pushed behind a batch being yielded |
| `IteratorSpec.PushThenStop` | core/src/protocol.ts:1384-1390 | an item pushed right before a stop, as the `close` event of a status listener, is handled exactly when the consumer is not inside the body of its loop |
| `IteratorSpec.ErrorEnds` | core/src/queued_iterator.ts:99-128 | after a stop with an error the batch is handled up to its next callback, and nothing else |
| `IteratorSpec.DoneEnds` | core/src/queued_iterator.ts:87-148 | a done iterator ends after at most as many resumptions as it has items, and two |
| `OrderedConsumer.OrderedPush` | jetstream/src/pushconsumer.ts:110-193 | whatever is lost, repeated or reordered, and however often the consumer is reset, the messages handed on are exactly the first ones of the stream from the start sequence |
| `OrderedConsumer.HeartbeatConfirms` | jetstream/src/pushconsumer.ts:345-376 | a heartbeat that is not stalled and causes no reset confirms that everything the consumer sent was accepted |
| `OrderedConsumer.DeliversExactly` | jetstream/src/pushconsumer.ts:390-402 | a message on a replaced inbox changes nothing, the next one of the current consumer is handed on, and any other makes the client start over right behind what it has |
| `OrderedConsumer.HeartbeatExactly` | jetstream/src/pushconsumer.ts:345-376 | a heartbeat changes nothing exactly when it is on a replaced inbox, stalled, or reports what was accepted; else the client starts over |
| `OrderedConsumer.PushCatchesUp` | jetstream/src/pushconsumer.ts:110-402 | after any run, when the messages of the current consumer arrive, the whole stream has been handed on |
| `OrderedPull.StepInv` | jetstream/src/consumer.ts:338-711 | every event of the client, the server and the network keeps the prefix invariant, when a message on the current inbox comes from the current consumer |
| `OrderedPull.OrderedPullSilent` | jetstream/src/consumer.ts:339-354 | the same prefix property for pull, with iterator or callback and with recoveries, when replaced consumers do not answer on the current inbox |
| `OrderedPull.CallbackStep` | jetstream/src/consumer.ts:486-711 | with a callback and no overlap, no event lets a pull name another consumer than that of the inbox it is answered on |
| `OrderedPull.OrderedPullCallback` | jetstream/src/consumer.ts:486-711 | with a callback, and no recovery or info request while the consumer is being replaced, the prefix property holds on every run |
| `OrderedPull.PullsFrom` | jetstream/src/consumer.ts:601-716 | a new consumer and a recovery are pulled from, up to the limit, at once with a callback and else in the queue |
| `OrderedPull.QueuedIsPublished` | jetstream/src/consumer.ts:694-711 | the iterator publishes its oldest pull, to the inbox current by then |
| `OrderedPull.ArrivesExactly` | jetstream/src/consumer.ts:338-379 | a message that is taken is taken off `pending.msgs`, and the client pulls exactly when that falls to the threshold; one that is not asks for a new consumer |
| `OrderedPull.StatusExactly` | jetstream/src/consumer.ts:262-306 | what will not come is taken off `pending.msgs`, which is topped up unless the status stalls |
| `OrderedPull.AnsweredOnce` | jetstream/src/consumer.ts:624-692 | an info is answered once; when the consumer is gone a recovery asks for a new one on a new inbox |
| `OrderedPull.RecoveryPulls` | jetstream/src/consumer.ts:601-646 | with a callback and no overlap a recovery lets the current consumer send the whole limit to the current inbox |
| `OrderedPullExact.StaleRunRepeats` | jetstream/src/consumer.ts:694-711 | a run of an iterator that is handed 1 to 6 and then 5 again: a pull queued before a reset asks the old consumer to deliver to the new inbox |
| `OrderedPullExact.LateInfoRepeats` | jetstream/src/consumer.ts:624-646 | a run of a callback that is handed 1, 2, 3, 4 and then 4 again: `resetPending` pulls from the old consumer when its info is answered after the reset |
| `OrderedPullExact.NotFoundRepeats` | jetstream/src/consumer.ts:664-679 | a run of a callback that is handed 1, 2, 3 and then 2 again, although replaced consumers are gone: `resetPending` resets while a creation is unanswered, and that creation is answered last |
| `OrderedPullExact.OrderedPullExact` | jetstream/src/consumer.ts:338-716 | ordered pull has the prefix property on every run exactly when it is used with a callback and no recovery or info request overlaps a replacement of the consumer |
| `OrderedClients.PullMessages.MessageCallback` | jetstream/src/consumer.ts:338-379 | the subscription callback takes the step of the model, the test of `pending.msgs` for the next pull included |
| `OrderedClients.PullMessages.StatusCallback` | jetstream/src/consumer.ts:262-306 | messages that will not come are taken off `pending.msgs`; some statuses stop before the next pull |
| `OrderedClients.PullMessages.ResetConsumer` | jetstream/src/consumer.ts:486-519 | a reset asks for a consumer that starts behind the last message handed on, on a new inbox |
| `OrderedClients.PullMessages.IssuePull` | jetstream/src/consumer.ts:694-711 | a pull is published at once for a callback, and queued otherwise, with its target fixed |
| `OrderedClients.PullMessages.GetConsumerOpts` | jetstream/src/consumer.ts:1021-1037 | the new consumer has the next serial and starts at the sequence after the cursor |
| `OrderedClients.PullMessages.CreateFailed` | jetstream/src/consumer.ts:520-557 | a creation that failed is tried again, with a new serial, after a delay |
| `OrderedClients.PullMessages.InfoArrives` | jetstream/src/consumer.ts:1052-1059 | the answer replaces `_info`, and `resetPending` pulls again from what it names |
| `OrderedClients.PullMessages.ConsumerNotFound` | jetstream/src/consumer.ts:664-679 | a consumer that is gone is replaced by `resetPending` |
| `OrderedClients.Consume` | jetstream/src/consumer.ts:190-716 | the class driven by any run ends where the model does, so that with a callback and no overlap what it handed on is a prefix of the stream |
| `OrderedClients.PushMessages.MessageCallback` | jetstream/src/pushconsumer.ts:390-402 | the subscription callback takes the step of the model |
| `OrderedClients.PushMessages.HeartbeatCallback` | jetstream/src/pushconsumer.ts:345-376 | a heartbeat resets the consumer when it reports more than was accepted, unless it is stalled |
| `OrderedClients.PushMessages.ResetConsumer` | jetstream/src/pushconsumer.ts:110-133 | a reset asks for a consumer that starts behind the last message handed on |
| `OrderedClients.ConsumePushed` | jetstream/src/pushconsumer.ts:110-402 | the class driven by any run has handed on a prefix of the stream |
| `PullCredit.BackPressure` | jetstream/src/consumer.ts:262-272 | messages in the iterator plus those the server may still send never exceed the limit, even when ends of requests are lost |
| `PullCredit.NeverStarves` | jetstream/src/consumer.ts:355-380 | while no status stalls the client or is lost, no credit leaks, and the server may send more than the threshold or the whole limit whenever the queue is worked off |
| `PullCredit.PendingExactly` | jetstream/src/consumer.ts:355-380 | the client pulls exactly when `pending.msgs` falls to the threshold, and then up to the limit, behind the message |
| `PullCredit.PullInv` | jetstream/src/consumer.ts:713-716 | a pull tops `pending.msgs` up to exactly the limit and keeps the bound |
| `PullCredit.MessageInv` | jetstream/src/consumer.ts:355-380 | a message that arrives keeps the bound, with the pull it may cause |
| `PullCredit.NoticeInv` | jetstream/src/consumer.ts:262-272 | what the server did not send is taken off `pending` and keeps the bound |
| `PullCredit.CoveredTail` | core/src/queued_iterator.ts:108-131 | taking the next item off the queue keeps every message behind the pull that replaces it |
| `PullCredit.PullMessages.MessageCallback` | jetstream/src/consumer.ts:355-380 | the callback takes the step of the model |
| `PullCredit.PullMessages.NoticeCallback` | jetstream/src/consumer.ts:262-306 | the callback takes the step of the model, for statuses that stall and for those that do not |
| `PullCredit.PullMessages.PullNow` | jetstream/src/consumer.ts:694-711 | the pull is counted at once, and published when the iterator reaches it |
| `PullCredit.Consume` | jetstream/src/consumer.ts:190-380 | the class driven by any run ends where the model does, and then the messages in its queue and those the server may still send are at most the limit |
| `DirectConsumer.DirectPrefix` | jetstream/src/jsm_direct.ts:435-534 | messages yielded over all pulls, losses and resets are exactly the first ones stored from the start sequence |
| `DirectConsumer.TakenIffNext` | jetstream/src/jsm_direct.ts:497-514 | a reply that arrives is yielded exactly when none before it in its batch was lost; else the batch is given up and nothing else changes |
| `DirectConsumer.PullYields` | jetstream/src/jsm_direct.ts:435-534 | after any run, a pull whose replies all arrive yields them all; one that asks for enough yields the rest of the stream |
| `DirectConsumer.PullsOn` | jetstream/src/jsm_direct.ts:497-534 | a batch that ends or is given up makes room for the next pull, which starts behind the last message |
| `DirectConsumer.StoppedYieldsNothing` | jetstream/src/jsm_direct.ts:426-446 | a consumer that was stopped yields nothing more and pulls no more |
| `DirectConsumer.Consumer.GetOptions` | jetstream/src/jsm_direct.ts:369-393 | the first pull starts at the requested sequence, a later one behind the last message |
| `DirectConsumer.Consumer.BatchCallback` | jetstream/src/jsm_direct.ts:471-515 | the callback of a batch takes the step of the model |
| `DirectConsumer.Consume` | jetstream/src/jsm_direct.ts:435-534 | the class driven by any run has yielded a prefix of the messages stored |
| `DataBuffer.DataBuffer.Fill` | core/src/databuffer.ts:101-112 | the arrays are appended, the first even when it is empty |
| `DataBuffer.DataBuffer.Pack` | core/src/databuffer.ts:57-68 | the arrays become one and the bytes stay |
| `DataBuffer.DataBuffer.Shift` | core/src/databuffer.ts:70-79 | the first array is taken out |
| `DataBuffer.DataBuffer.Drain` | core/src/databuffer.ts:81-99 | the first n bytes, or all, are taken out and the others stay in order |
| `DataBuffer.DataBuffer.Peek` | core/src/databuffer.ts:114-120 | all bytes are shown and stay |
| `DataBuffer.DataBuffer.Concatenated` | core/src/databuffer.ts:27-39 | the arrays are copied one after another |
| `Outbound.StepInv` | core/src/protocol.ts:538-718 | every dial, INFO, PING, PONG, command, flush and microtask keeps the order of commands and the match of deferreds and PINGs |
| `Outbound.QueueConserved` | core/src/protocol.ts:1170-1188 | what was flushed since the last reset followed by what waits is what was queued, in call order, as commands and as bytes |
| `Outbound.FlushIsPending` | core/src/protocol.ts:1458-1467 | on a live connection commands that wait have a flush on its way, which sends them all |
| `Outbound.EmptyCommandWaits` | core/src/protocol.ts:1170-1188 | an empty command stays in the buffer, and no flush is queued for the command behind it |
| `Outbound.PongMatches` | core/src/protocol.ts:1031-1036 | a PONG meets the deferred of the PING it answers, and the server has read that PING |
| `Outbound.PongMeansRead` | core/src/protocol.ts:1341-1349 | when the PONG of a flush comes, the server has read everything queued before the flush |
| `Outbound.FlushMeansRead` | core/src/protocol.ts:1341-1349 | a flush that resolved did so after the server had read everything queued before it; every flush is waiting, resolved or rejected, and only one of these |
| `Outbound.WireOrder` | core/src/protocol.ts:697-708 | every connection is given the CONNECT, the PING of the dial, the subscriptions if there are any, and then what was queued, all in call order; between them stand only PONGs, one for each PING of the server |
| `Outbound.ConnectSends` | core/src/protocol.ts:697-708 | on connecting the subscriptions go out, and behind them everything that waited |
| `Outbound.FlushCallSends` | core/src/protocol.ts:1341-1349 | a flush on a live connection sends everything that waits, and its PING behind it |
| `Outbound.FullBufferSends` | core/src/protocol.ts:1170-1188 | a command that fills the buffer is sent at once with what waits; another one waits |
| `Outbound.DialConnects` | core/src/protocol.ts:538-718 | after any run, a dial goes through with INFO, CONNECT, PING and PONG, with an authenticator that answers at once or later |
| `Outbound.NextDial` | core/src/protocol.ts:538-577 | a lost connection and a failed dial make room for the next dial, which rejects every flush that waits |
| `Connection.ProtocolHandler.ResetOutbound` | core/src/protocol.ts:538-552 | the buffer is emptied and all deferreds are rejected |
| `Connection.ProtocolHandler.Prepare` | core/src/protocol.ts:566-577 | a dial starts with an empty buffer and its own deferred in front |
| `Connection.ProtocolHandler.SendCommand` | core/src/protocol.ts:1170-1188 | the method takes the step of the model: the first command queues a microtask, a full buffer is flushed inline |
| `Connection.ProtocolHandler.FlushCall` | core/src/protocol.ts:1341-1349 | the method takes the step of the model |
| `Connection.ProtocolHandler.FlushNow` | core/src/protocol.ts:1458-1467 | everything in the buffer goes to the transport, or nothing while not connected |
| `Connection.ProtocolHandler.ProcessPong` | core/src/protocol.ts:1031-1036 | the deferred at the head is resolved, if there is one |
| `Connection.ProtocolHandler.ProcessInfo` | core/src/protocol.ts:1038-1092 | the first INFO of a connection sends CONNECT and PING, or waits for an authenticator |
| `Connection.ProtocolHandler.SendConnect` | core/src/protocol.ts:1109-1121 | CONNECT and the PING of the dial go past the buffer |
| `Connection.ProtocolHandler.DialSucceeds` | core/src/protocol.ts:697-708 | the subscriptions are sent before what was queued |
| `SubscriptionDrain.StepInv` | core/src/protocol.ts:272-295 | every step keeps the messages routed equal to those received and those on their way, and nothing is routed behind the answer to the drain |
| `SubscriptionDrain.DrainConserves` | core/src/protocol.ts:238-295 | the user gets the routed messages in order, and when the subscription has closed has got every message the server routed to it |
| `SubscriptionDrain.DrainCompletes` | core/src/protocol.ts:272-295 | a drain does not stall: when everything was read and handled, the subscription is closed |
| `SubscriptionDrain.DrainCloses` | core/src/protocol.ts:272-295 | a drain called on an open subscription closes it by the time everything was read and handled, with every routed message handed on |
| `SubscriptionDrain.DrainFinishes` | core/src/protocol.ts:272-295 | from any state after a drain there is a run to its end |
| `SubscriptionDrain.SubscriptionImpl.OnMsg` | core/src/protocol.ts:941-964 | a message reaches the callback or the queue of a subscription that is still in the map |
| `SubscriptionDrain.SubscriptionImpl.CallDrain` | core/src/protocol.ts:272-295 | the first drain sends UNSUB and then PING, a later one nothing |
| `SubscriptionDrain.SubscriptionImpl.Close` | core/src/protocol.ts:238-259 | an iterator closes behind the messages it has, a callback at once |
| `SubscriptionDrain.SubscriptionImpl.CancelSubscription` | core/src/protocol.ts:376-381 | the subscription is closed and leaves the map |
| `SubscriptionDrain.SubscriptionImpl.Next` | core/src/queued_iterator.ts:87-148 | the iterator handles its items in order and is done with the close function |
| `ServerPool.UpdateTheorem` | core/src/servers.ts:361-417 | gossip keeps user servers and the current one, keeps another gossiped server exactly when it is reported, has each reported server, and returns exactly the additions and deletions |
| `ServerPool.UpdatedOrder` | core/src/servers.ts:361-417 | the servers that stay come first, in their old order, and behind them the new ones, in the order of the report |
| `ServerPool.UpdatedListens` | core/src/servers.ts:361-404 | after an update listens are distinct and the current server is in the pool |
| `ServerPool.UpdateTwice` | core/src/servers.ts:361-417 | the same report again changes nothing, in whatever order the pool was shuffled |
| `ServerPool.ReportedOnceExactly` | core/src/servers.ts:369-404 | a report leaves every pool without repeats exactly when its URLs are written as `listen` writes them |
| `ServerPool.SecondEntry` | core/src/servers.ts:369-404 | a reported URL that is not gives the server connected to a second entry |
| `Servers.CheckConnectUrls` | core/src/servers.ts:422-445 | a report is refused exactly when some URL of it does not parse, and that URL is named |
| `Servers.Shuffle` | core/src/util.ts:220-226 | shuffling is a permutation, whatever the random numbers |
| `Servers.FindStale` | core/src/servers.ts:379-391 | the loop finds the indices of exactly the servers to delete, and what is reported and new |
| `Servers.DeleteStale` | core/src/servers.ts:393-398 | splicing from the last index down deletes exactly those and reports them |
| `Servers.Servers.Update` | core/src/servers.ts:361-417 | the pool becomes the updated one, shuffled behind the current server if asked for; a bad URL changes nothing |
| `Servers.Servers.SetServers` | core/src/servers.ts:213-245 | the pool is one server per entry, all named by the user, the known ones taken over; the current server stays or the head becomes it |
| `Servers.Servers.SelectServer` | core/src/servers.ts:277-289 | the current server once without moving it, then the head, which goes to the end |
| `Servers.Servers.RemoveServer` | core/src/servers.ts:295-300 | the server is removed if it is in the pool; otherwise the last one is |
| `Reconnect.DialLoop.Run` | core/src/protocol.ts:811-899 | the loop ends; each server is tried exactly max(1, limit - reconnects) times, attempts at one server are at least the delay apart, and the last error is thrown |
| `Reconnect.DialLoop.Round` | core/src/protocol.ts:813-897 | each round uses up an attempt or, with the attempts unchanged, waiting time |
| `Reconnect.DialLoop.TryServer` | core/src/protocol.ts:875-891 | an attempt is counted, and the server leaves the pool at the limit |
| `Reconnect.DialLoop.Pause` | core/src/protocol.ts:893-897 | a server that is not ready is passed over with a sleep that brings some server nearer |
| `Reconnect.LogLength` | core/src/protocol.ts:811-899 | the attempts are the sum over the servers of their attempts |
| `Reconnect.SumWaitLess` | core/src/protocol.ts:893-897 | time that passes shortens the sum of the waits |
| `IpText.FormParses` | core/src/ipparser.ts:84-170 | every text form of an address, with `::` or a dotted tail or both, is parsed to exactly its 16 bytes |
| `IpText.FormWas` | core/src/ipparser.ts:84-170 | whatever parseIPv6 accepts is the text of a form, and of the address it returns |
| `IpText.ParseIPExactly` | core/src/ipparser.ts:50-170 | parseIP returns an address exactly for the texts that stand for it |
| `IpText.DottedParses` | core/src/ipparser.ts:62-82 | a dotted address is parsed whatever text follows it |
| `IpText.AddressRoundTrip` | core/src/ipparser.ts:50-170 | every 16-byte address, printed as eight groups, is parsed back |
| `IpText.DecAsHex` | core/src/ipparser.ts:98-110 | a part of a dotted address passes the limit for groups when it is first read as hexadecimal |
| `IpCase.DigitsInOrder` | core/src/ipparser.ts:172-215 | the digits 0 to 9, a to f and A to F, and nothing else, stand for their place in that list |
| `IpCase.CaseDoesNotMatter` | core/src/ipparser.ts:50-215 | every text is read alike in lower, upper and mixed case |
| `IpCase.AnyCaseRoundTrip` | core/src/ipparser.ts:50-215 | every 16-byte address printed as eight groups, in any mix of cases, is parsed back |
| `IpCase.DottedRoundTrip` | core/src/ipparser.ts:62-82 | every four bytes printed with dots are parsed back, as the address they are mapped to |
| `IpParser.Dtoi` | core/src/ipparser.ts:172-189 | the value and length of the leading decimal numeral, below 0xFFFFFF |
| `IpParser.Xtoi` | core/src/ipparser.ts:191-215 | the value and length of the leading hexadecimal numeral, below 0xFFFFFF |
| `IpParser.ParseV4` | core/src/ipparser.ts:62-82 | the loop over the parts computes the mapped address |
| `IpParser.ReadGroups` | core/src/ipparser.ts:96-148 | the loop over the groups writes the bytes of the text and finds the place of the zeros |
| `IpParser.InsertZeros` | core/src/ipparser.ts:159-165 | the bytes behind the zeros are moved up in place, overlapping, and the zeros are put in |
| `IpParser.ParseV6` | core/src/ipparser.ts:84-170 | the array returned is the address of the text, or there is none |
| `IpParser.Parse` | core/src/ipparser.ts:50-60 | the first dot or colon decides how the text is read |
| `HeadersSpec.CanonicalIdempotent` | core/src/headers.ts:35-65 | a canonical name stays as it is |
| `HeadersSpec.CanonicalIffSameLetters` | core/src/headers.ts:35-65 | two names have the same canonical form exactly when they differ at most in case |
| `HeadersSpec.CanonicalExactly` | core/src/headers.ts:35-65 | the canonical name is the one text with the same letters and capitals at the start and behind each dash only |
| `HeadersSpec.NamesExactly` | core/src/headers.ts:35-65 | a name is refused exactly when it has a blank, a control character, a colon or a character beyond ASCII |
| `HeadersSpec.FindsExactly` | core/src/headers.ts:192-211 | a search finds exactly the keys that match, each once; only a canonical one refuses a name |
| `HeadersSpec.MakeExactly` | core/src/headers.ts:67-74 | `headers` wants a description exactly with a positive code and none with 0 |
| `HeadersSpec.PutIs` | core/src/headers.ts:255-261 | a value is added at the end of its key and no other key changes |
| `HeadersSpec.SetIs` | core/src/headers.ts:239-242 | `set` leaves exactly the one value under its key, takes the other matching keys away and changes no other |
| `HeadersSpec.AppendAndDeleteAre` | core/src/headers.ts:244-281 | `append` adds at the end of its key, `delete` takes the matching keys away, and no other key changes |
| `HeadersSpec.TargetIs` | core/src/headers.ts:244-253 | the key a value goes to: the given, the canonical, or the first that differs only in case |
| `HeadersSpec.ApplyAllGood` | core/src/headers.ts:239-281 | append, set and delete keep names valid, keys distinct, values trimmed and without line ends |
| `HeadersSpec.ReadBack` | core/src/headers.ts:120-167 | what decoding the text of headers gives, for every status code |
| `HeadersSpec.LineExactly` | core/src/headers.ts:136-149 | a line without a colon is passed over; another adds what is behind its first colon, trimmed, to the name in front, and is refused exactly if that is no name |
| `HeadersSpec.RoundTripExactly` | core/src/headers.ts:120-171 | decoding what was encoded gives the same code, description, keys and values in order exactly when the code is not negative |
| `HeadersSpec.BuiltRoundTrip` | core/src/headers.ts:67-74 | the same for all headers that `headers`, `append`, `set` and `delete` build |
| `Headers.CanonicalMIMEHeaderKey` | core/src/headers.ts:35-65 | the loop computes the canonical name, or refuses a character |
| `Headers.MsgHdrsImpl.Find` | core/src/headers.ts:192-211 | the keys that match, in order |
| `Headers.MsgHdrsImpl.Append` | core/src/headers.ts:244-262 | the value goes to its key, or a bad name or value changes nothing |
| `Headers.MsgHdrsImpl.Delete` | core/src/headers.ts:276-281 | every matching key is gone and the others stay |
| `Headers.MsgHdrsImpl.Set` | core/src/headers.ts:239-242 | the values are replaced; when the value is refused they are already deleted |
| `Headers.MsgHdrsImpl.ToString` | core/src/headers.ts:153-167 | the loops print the specified text |
| `Headers.Decode` | core/src/headers.ts:120-151 | the loop over the lines builds the specified headers, or throws |
| `Text.SplitJoin` | core/src/headers.ts:123-123 | splitting at line ends undoes joining lines that have none |
| `Text.TrimIs` | core/src/headers.ts:144-144 | trimming takes away all blanks at the ends and nothing of a trimmed text |

## Left out

- Sockets, the WebSocket transport, TLS, DNS, URL parsing and authenticators: I/O, or not visible here. An asynchronous authenticator is an event that comes later.
- JSON and text codecs: INFO, CONNECT and JetStream responses are values already parsed, headers are text.
- DenoBuffer.DenoBuffer.constructor: takes at most 2^33 - 3 bytes, which is more than any engine allocates; the cost bound on reallocations needs it.
- Outbound.FlushIsPending: as the other theorems about runs of Outbound, for commands that are not empty, as those of every caller in the repository; `EmptyCommandWaits` says what an empty one does.
- Servers.Servers.Update: for a pool with a current server, which every pool has once `SetServers` ran; that listens stay distinct needs URLs written as `listen` writes them.
- Parser.Parser.Parse: `argBuf` and `msgBuf` are byte sequences; that DenoBuffer is such a sequence is PerformAll. Subject, reply and payload are values, so that views into the chunk alias nothing.
- DenoBuffer.DenoBuffer.ReadFrom: only while nothing was read (`off` is 0), which is how the repository uses it; what a pass does otherwise, which reads over unread bytes, is ReadDirect.
- ParserChunks.ChunkIndependenceExact: states the exact condition for the lines of INFO and -ERR; for MSG and HMSG, whose splitter drops a CR as a blank, the condition of ChunkIndependence is sufficient.
- FastIngestTheorems.WindowHolds: about a caller that awaits each add, last and end; without that the window does not hold back the caller.
- OrderedConsumer.OrderedPush: consumers started by sequence and read with `consume`; by last, new, last per subject or time, and ordered `fetch`, a reset changes the start rule.
- OrderedPull.OrderedPullSilent: one `consume` that is not stopped, with a limit on messages and without `max_bytes`; what a pull of 0 lets the server send is a parameter, and in the runs of OrderedPullExact nothing.
- PullCredit.BackPressure: a limit on messages, without `resetPending`, `max_bytes`, pinned and priority groups, which break the simple count of credit. `pending.requests`, which `consume` never reads, is not in the model.
- IteratorSpec.StopHandlesAllExactly: for callbacks that do not throw, where the iterator ends at once, and that push nothing themselves; a second `iterate`, and one next to a callback, throw before they read anything and are not modelled.
- DirectConsumer.DirectPrefix: a start by sequence; the sleep between pulls and `cursor.pending` do not change what is yielded.
- Outbound.FlushMeansRead: heartbeats are flushes like others; that the heartbeat resolves its own promises early is not part of the model.
- SubscriptionDrain.DrainConserves: no reconnect, and the subscription ends by the drain, without a limit on messages, a timeout or an `unsubscribe` of its own.
- Servers.Servers.SetServers: a URL that does not parse fails the call after some servers were marked as named by the user; only the pool itself is said to be unchanged.
- Reconnect.DialLoop.Run: after a first connect, without `reconnectToServer`, `waitOnFirstConnect`, the removal on first connect, aborts of authentication and `close`; with a limit of -1 the loop does not end. The alternatives of one server are one dial.
- HeadersSpec.RoundTripExactly: ASCII text and status codes that are safe integers; lower case is that of ASCII letters.
- `getPending` and the other counters of iterators, profiling, slow notifications, status listeners and error texts.
- JetStream management calls, listers, option validation, semver, bench, mux request bookkeeping, examples and command line tools: plumbing.
