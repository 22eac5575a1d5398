# Verified model of slog-agent

slog-agent takes log records in over TCP, transforms them, packs them into chunks, queues the chunks in memory and on
disk, and forwards them upstream until they are acknowledged. This project models its hardest parts in Dafny and proves
what they promise. `dafny verify dfyconfig.toml` checks all of it.

## How it is built

| part of the agent | modules |
|---|---|
| delivery protocol between a client worker and its acknowledger | `Delivery` (the transition system), `DeliverySafety` (its invariant), `DeliveryTheorems`, `Leftovers` |
| hybrid memory/disk chunk buffer | `ChunkStore` (files, gauges, ledger), `HybridBuffer` (the transition system), `HybridSafety`, `HybridFiles`, `HybridGauge`, `HybridOrder`, `HybridTheorems`, `HybridExcess` (how far the byte gauge is off), `HybridBufferer` (the loops) |
| multi-line framing of a TCP stream | `MultiLineSpec`, `MultiLineReader` |
| MessagePack event serializer with rewriter chains | `Msgpack`, `Rewriters`, `SerializerSpec`, `EventSerializer`, `Overlong` (events longer than the buffer) |
| routing to pipelines by key set, with batching | `RoutingSpec`, `KeyRouting` |
| workers: transforming, serializing for several outputs, packing into chunks | `PackingSpec`, `Packing`, `Unpacking`, `Outputs` |
| byte scanners and small state machines | `Unescape`, `RedactSpec`, `Redact` and `RedactTwice`, `ExtractSpec`, `ExtractMirror`, `Extract` and `ExtractPattern`, `PercentageDrop`, `ChunkIds`, `SyslogSpec`, `Syslog` and `SyslogStream` (framing and parsing together) |

Code that changes buffers and objects step by step is imperative here too: classes and loops, each proved against a
specification on values, about which the lemmas are. The two concurrent parts are transition systems: a step is one
operation on a channel, one answer of the network or the file system, one timer or one signal, and steps of different
goroutines come in any order. A reachable state is one some sequence of steps leads to, so the theorems hold over all
interleavings. What the network, the file system and the clock answer are parameters of the steps.

## What the proofs found

- Of two outputs of one worker, the later one gets another stream than on its own if a Fluentd output before it has
  unescaped a field of the record, the record was not marked as unescaped before, and the first field that the later one
  would unescape has something to unescape (`Outputs.OwnStreamIff`, `Outputs.TwinOutputsDiffer`).
- Chunk IDs are unique and also sort by creation if and only if the clock does not go back. Going back need not repeat
  an ID (readings 5, 3), but may (5, 3, 6, 3); it does so exactly for equal readings that come equally long after the
  last record (`ChunkIds.IdsRepeatIff`).
- The syslog parser panics, exactly, on input of at least 32 bytes that begins with "< ": the first field is too short
  for the slice that looks for its end (`SyslogSpec.CrashesIff`). Such input reaches it: the framer tests every line for
  a record start but the first one of a connection, or after a flush or an overflow, and hands that over all the same.
  A connection that begins with "< " and thirty bytes, and goes on with a newline and a proper record, makes the agent
  panic (`SyslogStream.StreamCrashesIff`, `SyslogStream.CrashesIffAfterReset`, `SyslogStream.TwoLinesCrash`).
- An extraction pattern with nothing behind its star, such as "Foo*" for the head of a text, or nothing before it, such
  as "*Bar" for its tail, is accepted by the verification of the configuration. It makes an extractor without a far
  boundary and without a table, which panics on any text with the near boundary and one byte more
  (`ExtractPattern.NewStringExtractorSimple`, `ExtractSpec.ExtractsExactlyLabels`, `ExtractMirror.ExtractsLabelsAtEnd`).
- The loop over a character range of a bracket expression does not end if the range ends in byte 255, because its
  variable is a byte (`ExtractPattern.FillListed`, `ExtractPattern.HangsOnLastByte`).
- Redacting twice can redact more than redacting once, where an '@' is left right behind an address, as in
  "a@b.c.@d.e", or right before addresses up to the end of the text, as in "x@a@b.c" (`RedactTwice.ChangesAgainIff`).
- A field that is inlined into itself is unescaped once more by the `unescape` transform than by the rewriter
  (`Rewriters.RewriterAgreesWithTransform`, `Rewriters.RewriterDisagrees`).
- Different key sets whose concatenations are equal share a pipeline (`RoutingSpec.MergedKeysCollide`).
- The gauge of persistent bytes never comes down again for a saved chunk that overflows the queue, cannot be loaded, or
  whose file cannot be removed; it is too high by exactly the sizes of those (`HybridExcess.ExcessIsGrown`,
  `HybridExcess.UnreadableFileStaysCounted`).
- A chunk given back by a consumer that cannot be written is lost while it is counted as left over
  (`HybridTheorems.GivenBackOrLost`, `HybridExcess.GivenBackAndLost`).
- The worker never renews the time of its last chunk, so from the first flush interval on every tick flushes, even right
  after a flush (`Packing.LateTicksAllFlush`, `Packing.FlushesTooEarlyIff`, `Packing.TwoTicksFlush`).
- The serializer reports an event as too long only where the last environment value does not fit; any longer event makes
  it panic (`Overlong.OverlongFate`). A record reported as too long is counted in its chunk all the same
  (`Unpacking.CountedIsContainedIff`).

## Model

| member | source | states |
|---|---|---|
| `DeliveryTheorems.EachChunkHandedOnce` | output/baseoutput/clientworker.go:81-117 | when the worker has stopped, every chunk it ever received was handed to exactly one of the two callbacks, once, over every interleaving of sends, ACKs, failures, reconnects and stop |
| `DeliveryTheorems.OnlyTakenChunksHanded` | output/baseoutput/clientworker.go:110-115 | the callbacks get no chunk that was not received, and none more often |
| `DeliveryTheorems.HeldInOnePlace` | output/baseoutput/clientsession.go:278-286 | at any time each received chunk is delivered once or is in exactly one of: leftovers channel, collected previous leftovers, last chunk, acknowledger channel, pending map |
| `DeliveryTheorems.CollectedPlacesDisjoint` | output/baseoutput/clientsession.go:226-286 | when leftovers are merged, no two chunks of the merged list have the same ID, whatever order the map gives |
| `DeliveryTheorems.NextSessionGetsAll` | output/baseoutput/clientsession.go:226-294 | the new leftovers channel holds exactly the received chunks that are neither acknowledged nor left, in strictly ascending order of IDs |
| `DeliveryTheorems.NothingAfterDelivery` | output/baseoutput/clientsession.go:347-361 | after a chunk was acknowledged or left it is never sent, acknowledged or left again |
| `DeliveryTheorems.AcknowledgedWasSent` | output/baseoutput/clientsession.go:308-323 | whatever waits for an ACK was sent before, and only sent chunks are taken for acknowledged |
| `DeliveryTheorems.LogTellsDeliveries` | output/baseoutput/clientworker.go:112-115 | the calls of the two callbacks are exactly those in the history the other theorems speak about |
| `DeliveryTheorems.NothingClosedTwice` | output/baseoutput/clientsession.go:231-260 | neither the leftovers channel, nor the acknowledger channel, nor the connection is closed twice, and nothing is sent to a closed acknowledger channel |
| `DeliveryTheorems.GaugesBetweenSessions` | output/baseoutput/clientmetrics.go:62-81 | between sessions the pending-ACK gauge is 0 and the leftover gauge is the length of the leftovers channel |
| `DeliveryTheorems.LeftoverGaugeInSession` | output/baseoutput/clientmetrics.go:74-81 | the leftover gauge is the length of the leftovers channel except while leftovers are being collected |
| `DeliveryTheorems.PendingIsUnknownAcks` | output/baseoutput/clientsession.go:307-356 | at the head of the acknowledger's loop the pending map has one entry per ACK with an unknown ID so far |
| `DeliveryTheorems.ResentInOrder` | output/baseoutput/clientsession.go:99-106 | the chunk resent next has a smaller ID than all that are still to be resent |
| `DeliveryTheorems.NeverStuck` | output/baseoutput/clientsession.go:187-204 | in every reachable state before the end the worker or the acknowledger can take a step of its own: the bounded channel, the stop signal and the end of the acknowledger never deadlock |
| `DeliveryTheorems.StoppingApproaches` | output/baseoutput/clientworker.go:81-117 | once stop is signalled, every step of the worker and the acknowledger lowers a measure, whatever the network answers, except a successful ping and the expiry of a session |
| `DeliveryTheorems.OutsideAddsNothing` | output/baseoutput/clientworker.go:50-66 | and no step from outside raises it, because the input channel was closed before the signal |
| `DeliveryTheorems.TimersDoNotApproach` | output/baseoutput/clientsession.go:150-166 | a ping leaves the state as it is and an expired session is followed by another, so these two steps cannot lower any such measure |
| `DeliveryTheorems.StopReachesEnd` | output/baseoutput/clientworker.go:81-117 | so from every reachable state after the signal, steps of the worker and the acknowledger alone, without an expired session, lead to the end |
| `DeliveryTheorems.AcknowledgerGetsDone` | output/baseoutput/clientsession.go:254-263 | each step of the acknowledger lowers a bound on how many it can still take |
| `DeliveryTheorems.WaitingAddsNoWork` | output/baseoutput/clientsession.go:254-263 | while the worker waits for the end of the acknowledger, no other step raises that bound or changes what the worker waits for |
| `DeliverySafety.StepKeeps` | output/baseoutput/clientsession.go:67-294 | the whole invariant (chunks in one place, fresh IDs, gauges, closes, ascending leftovers, silence after delivery) is kept by every step |
| `DeliverySafety.WaitingIsNotPending` | output/baseoutput/clientsession.go:313-323 | a chunk in the acknowledger channel never has the ID of a pending one, so taking it overwrites nothing |
| `DeliverySafety.MergedUnique` | output/baseoutput/clientsession.go:273-289 | sorting and deduplicating the merged list drops none of the chunks held anywhere |
| `Leftovers.NewLeftoverChannel` | output/baseoutput/clientsession.go:366-378 | the loop fills the channel with the sorted list without repeated IDs and never has more to put in than fits |
| `Leftovers.LeftoverQueueAscends` | output/baseoutput/clientsession.go:366-378 | the channel is strictly ascending by ID and has exactly the IDs of the list |
| `Leftovers.LeftoverQueueKeepsAll` | output/baseoutput/clientsession.go:366-378 | if IDs are distinct, no chunk is skipped |
| `HybridTheorems.LedgerBalances` | buffer/hybridbuffer/chunkmanager.go:69-107 | in every reachable state inputs = consumed + leftover + dropped + pending, and pending counts the chunks in the hands of Accept, in the input queue, with the feeder, in the output queue, with consumers, and saved at shutdown |
| `HybridTheorems.PendingBeforeShutdown` | buffer/hybridbuffer/chunkmanager.go:69-107 | before the input channel is closed, pending is the number of chunks physically on their way |
| `HybridTheorems.PendingAfterCleanup` | buffer/hybridbuffer/outputfeeder.go:88-98 | when the feeder has stopped, pending is the number of chunks saved by its cleanup |
| `HybridTheorems.OneWhereabouts` | buffer/hybridbuffer/chunkmanager.go:84-107 | chunk by chunk: each ID is in one place, or was consumed, dropped or lost, and only one of these |
| `HybridTheorems.LossyFifo` | buffer/hybridbuffer/outputfeeder.go:66-127 | what consumers receive is a subsequence of what arrived, each chunk loaded and with exactly its original bytes, however often it was unloaded and loaded |
| `HybridTheorems.RecoveredComeFirst` | buffer/hybridbuffer/bufferer.go:155-171 | arrivals are first the recovered files in the order of their names, then only accepted chunks |
| `HybridTheorems.ContentsOnlyGrow` | buffer/hybridbuffer/bufferer.go:104-132 | the original bytes the theorems refer to are fixed when a chunk is accepted |
| `HybridTheorems.RestartFindsAll` | buffer/hybridbuffer/outputfeeder.go:129-160 | every chunk saved at shutdown or given back has a file with its original bytes |
| `HybridTheorems.GaugeInBounds` | buffer/hybridbuffer/chunkoperator.go:151-226 | the byte gauge is never below the size of all saved chunks (less the files whose size could not be found out at start) and never above the larger of the limit and the bytes recovered |
| `HybridExcess.OverflowOvercounts` | buffer/hybridbuffer/bufferer.go:124-131 | a chunk that overflows after it was unloaded keeps its file, and the byte gauge keeps its size |
| `HybridExcess.StepExcess` | buffer/hybridbuffer/chunkoperator.go:182-208 | what the byte gauge shows beyond all saved chunks grows, in every reachable state and step, by exactly the size of a saved chunk that overflows the queue, fails to be loaded, or is consumed without its file being removed, and by nothing otherwise |
| `HybridExcess.ExcessIsGrown` | buffer/hybridbuffer/chunkoperator.go:151-226 | after any run the gauge is too high by exactly the sum of these sizes |
| `HybridExcess.UnreadableFileStaysCounted` | buffer/hybridbuffer/chunkmanager.go:53-59 | a reachable state in which an unreadable recovered file of three bytes has gone and its three bytes are still on the gauge |
| `HybridTheorems.GivenBackOrLost` | buffer/hybridbuffer/chunkmanager.go:90-95 | a chunk given back is on disk afterwards if and only if it was saved or there is a directory, room, data and no write error; else it has no file, or what the failed write left; it is counted as left over either way |
| `HybridExcess.GivenBackAndLost` | buffer/hybridbuffer/chunkmanager.go:90-95 | a reachable state from which a chunk given back is lost and counted as left over |
| `HybridTheorems.CleanupEnds` | buffer/hybridbuffer/outputfeeder.go:129-160 | every step of the feeder's cleanup lowers a bound: its loops over the channels end |
| `HybridTheorems.NothingAddsToCleanup` | buffer/hybridbuffer/bufferer.go:146-147 | because the input channel is closed before the signal, no other step adds to the cleanup |
| `HybridTheorems.CleanupNeverStuck` | buffer/hybridbuffer/outputfeeder.go:88-97 | the cleanup can always go on until it waits for consumers |
| `HybridTheorems.FeederNeverStuck` | buffer/hybridbuffer/outputfeeder.go:121-126 | once stop is signalled, a feeder with a full output queue can go on without consumers |
| `HybridTheorems.FeedKeeps` | buffer/hybridbuffer/outputfeeder.go:63-163 | every step of the feeder keeps the whole invariant |
| `HybridTheorems.AcceptKeeps` | buffer/hybridbuffer/bufferer.go:104-147 | every step of Accept and Destroy keeps the whole invariant, with any number of calls of Accept at a time |
| `HybridTheorems.ConsumeKeeps` | buffer/hybridbuffer/chunkmanager.go:84-95 | every step of a consumer keeps the whole invariant |
| `HybridFiles.PlacesElsewhere` | buffer/hybridbuffer/chunkoperator.go:151-199 | changing the file of a chunk that is nowhere else harms no other chunk |
| `HybridFiles.UnloadFaithful` | buffer/hybridbuffer/chunkoperator.go:151-180 | unloading touches no other file, and the unloaded chunk still stands for its bytes |
| `HybridFiles.LoadFaithful` | buffer/hybridbuffer/chunkoperator.go:127-149 | loading gives back the original bytes |
| `HybridGauge.UnloadMeasured` | buffer/hybridbuffer/chunkoperator.go:151-180 | the gauge grows by exactly the size that becomes saved, and not beyond the limit |
| `HybridGauge.RemoveMeasured` | buffer/hybridbuffer/chunkoperator.go:182-199 | the gauge shrinks by no more than the saved size of the removed chunk |
| `HybridGauge.ForgetMeasured` | buffer/hybridbuffer/chunkoperator.go:201-208 | dropping takes no more than the saved size off the gauge |
| `HybridBufferer.Bufferer.Accept` | buffer/hybridbuffer/bufferer.go:104-132 | a call without interruption is the run of steps: count, unload or drop above half of the output limit, push or drop on overflow |
| `HybridBufferer.Bufferer.RecoverExistingChunks` | buffer/hybridbuffer/bufferer.go:155-171 | the recovery loop is the run of recovery steps, stopping at the first file that finds the queue full |
| `HybridBufferer.Bufferer.LoadToOutput` | buffer/hybridbuffer/outputfeeder.go:104-127 | the four outcomes: dropped, discarded as empty, put out, or aborted with the chunk kept as it was received |
| `HybridBufferer.Bufferer.SaveEverything` | buffer/hybridbuffer/outputfeeder.go:129-163 | the three parts of the cleanup, in order, are the run of saving steps |
| `HybridBufferer.AcceptAllKeeps` | buffer/hybridbuffer/bufferer.go:104-132 | a whole call of Accept keeps the invariant |
| `HybridBufferer.LoadedKeeps` | buffer/hybridbuffer/outputfeeder.go:104-127 | a whole call of loadToOutput keeps the invariant |
| `HybridBufferer.RecoverAllKeeps` | buffer/hybridbuffer/bufferer.go:155-171 | the whole recovery keeps the invariant |
| `HybridBufferer.SaveAllKeeps` | buffer/hybridbuffer/outputfeeder.go:129-163 | a whole cleanup keeps the invariant |
| `HybridBufferer.ShutdownSavesEverything` | buffer/hybridbuffer/outputfeeder.go:129-163 | with a working directory and room for all that is not saved yet, shutdown drops nothing and keeps every chunk, with or without a chunk in the hand of the feeder |
| `ChunkStore.ChunkOperator.LoadChunk` | buffer/hybridbuffer/chunkoperator.go:127-149 | the outcome and the changed reference for every case, with the file system answering as told |
| `ChunkStore.ChunkOperator.UnloadChunk` | buffer/hybridbuffer/chunkoperator.go:151-180 | the whole new state: files, both gauges and the reference; a failed write may leave anything in the file |
| `ChunkStore.ChunkOperator.RemoveChunk` | buffer/hybridbuffer/chunkoperator.go:182-199 | the whole new state; nothing changes when unlinking fails |
| `ChunkStore.ChunkOperator.OnChunkDropped` | buffer/hybridbuffer/chunkoperator.go:201-208 | the gauges go down by the data in memory, which is nothing for an unloaded chunk |
| `ChunkStore.ChunkOperator.OnChunkRecovered` | buffer/hybridbuffer/chunkoperator.go:210-226 | the count goes up before the size is looked up, the bytes only when it is found |
| `ChunkStore.ChunkManager.LoadOrDropChunk` | buffer/hybridbuffer/chunkmanager.go:53-59 | loads, or drops and counts |
| `ChunkStore.ChunkManager.UnloadOrDropChunk` | buffer/hybridbuffer/chunkmanager.go:61-67 | unloads, or drops and counts |
| `ChunkStore.ChunkManager.OnChunkConsumed` | buffer/hybridbuffer/chunkmanager.go:84-88 | the file is removed and the ledger moves one chunk from pending to consumed |
| `ChunkStore.ChunkManager.OnChunkLeftover` | buffer/hybridbuffer/chunkmanager.go:90-95 | the chunk is unloaded if possible and counted as left over in any case |
| `ChunkStore.ChunkManager.OnChunkCorrupted` | buffer/hybridbuffer/chunkmanager.go:97-101 | the file is removed and the ledger moves one chunk from pending to dropped |
| `ChunkStore.ChunkManager.OnChunkDropped` | buffer/hybridbuffer/chunkmanager.go:103-107 | the ledger moves one chunk from pending to dropped; its file stays |
| `MultiLineReader.MultiLineReader.constructor` | input/tcplistener/multilinereader.go:38-48 | the buffer is the larger of the two sizes and nothing is pending |
| `MultiLineReader.MultiLineReader.Read` | input/tcplistener/multilinereader.go:52-59 | one read takes the framer where feeding the bytes and settling takes the specification; afterwards the search offset is one past the last newline and the soft limit is free |
| `MultiLineReader.MultiLineReader.Flush` | input/tcplistener/multilinereader.go:62-75 | the finished lines become a record if they pass the head test; the unfinished line moves to the front |
| `MultiLineReader.MultiLineReader.FlushAll` | input/tcplistener/multilinereader.go:78-91 | everything pending becomes a record if it passes the head test, and the buffer is empty |
| `MultiLineReader.MultiLineReader.ProcessBuffer` | input/tcplistener/multilinereader.go:93-124 | the scan over new bytes, the relocation and the overflow check together do what feeding byte by byte does |
| `MultiLineReader.MultiLineReader.ConsumeEnded` | input/tcplistener/multilinereader.go:93-112 | the scan loop consumes exactly the records that a later head line has ended |
| `MultiLineReader.MultiLineReader.CheckOverflow` | input/tcplistener/multilinereader.go:126-147 | what an overflow emits and drops, for every case of the head test |
| `MultiLineSpec.FramingIgnoresReadBoundaries` | input/tcplistener/multilinereader.go:93-124 | without flush or overflow the framer is where the whole stream takes it, however reads cut the stream |
| `MultiLineSpec.FeedGroupsLines` | input/tcplistener/multilinereader.go:93-124 | feeding bytes groups lines: a non-empty line that passes the head test opens the next record |
| `MultiLineSpec.GroupsOpenWithHeads` | input/tcplistener/multilinereader.go:100-112 | every record but the first opens with a line that passes the head test |
| `MultiLineSpec.RecordsAreTheStream` | input/tcplistener/multilinereader.go:93-124 | without flush or overflow the stream is every record followed by a newline, then the bytes still buffered |
| `MultiLineSpec.RunTraced` | input/tcplistener/multilinereader.go:52-147 | over any reads, flushes and overflows, emitted records are in-order slices of the stream that do not overlap |
| `SerializerSpec.Layout.EventEncodes` | output/fluentdforward/eventserializer.go:91-205 | MessagePack ("Formats") decoding of what is written gives exactly [EventTime, map of the unmasked non-empty fields and "environment"], with no bytes left |
| `SerializerSpec.Layout.RootEncodes` | output/fluentdforward/eventserializer.go:117-190 | the pairs of the root map decode to the fields in order, each through its rewriters, and the nested environment map |
| `EventSerializer.EventSerializer.constructor` | output/fluentdforward/eventserializer.go:39-79 | masks, rewriters, pre-serialized keys and environment locators are those of the schema and the configuration |
| `EventSerializer.EventSerializer.EncodeRecord` | output/fluentdforward/eventserializer.go:91-205 | for an event no longer than the buffer: the buffer holds it and the position is its length when a byte of the buffer stays free; one that fills the buffer is reported as too long; the record is marked as its chains leave it |
| `EventSerializer.EventSerializer.SerializeRecord` | output/fluentdforward/eventserializer.go:82-85 | the stream decodes to exactly the event, and is empty for an event that fills the buffer; the record is marked as its chains leave it |
| `Overlong.OverlongFate` | output/fluentdforward/eventserializer.go:91-203 | for every event and buffer size: a panic exactly if the event without its last environment value is longer than the buffer; else the position is the length of the event, or the end of the buffer, which counts as too long |
| `SerializerSpec.Layout.EventBytesByFlag` | output/fluentdforward/eventserializer.go:128-158 | whether the record counts as unescaped makes a difference to the event exactly if the first field written through an unescaping chain has something to unescape |
| `SerializerSpec.Layout.FlagAfterFieldsIff` | rewrite/runescape/runescape.go:52-62 | a record counts as unescaped after it was serialized exactly if it did before or some written field goes through an unescaping chain |
| `EventSerializer.EventSerializer.WriteFields` | output/fluentdforward/eventserializer.go:117-160 | the pairs of all fields that are neither masked nor empty, and their number |
| `EventSerializer.WriteChain` | output/fluentdforward/eventserializer.go:128-158 | a rewritten value gets the header reserved for its longest form, patched in place when the body is shorter |
| `EventSerializer.PatchStringLen` | output/fastmsgpack/encodecollections.go:65-95 | a patched header keeps its reserved width and changes nothing after it |
| `EventSerializer.PatchMapLen` | output/fastmsgpack/encodecollections.go:26-41 | the root map header is written into the room reserved for it and changes nothing after it |
| `EventSerializer.NewRewriters` | output/fluentdforward/eventserializer.go:39-79 | the chain is built from its last rewriter to the first |
| `EventSerializer.SerializeStrings` | output/fluentdforward/eventserializer.go:208-226 | each pre-serialized key is the MessagePack form of its string |
| `Msgpack.StrEncodes` | output/fastmsgpack/encodecollections.go:44-80 | the chosen string form decodes to the string, for all three widths |
| `Msgpack.Str16Encodes` | output/fastmsgpack/encodecollections.go:51-74 | the 16-bit form decodes for any length that fits, also one that a narrower form could hold |
| `Msgpack.MapEncodes` | output/fastmsgpack/encodecollections.go:26-41 | a map header of either width followed by its pairs decodes to the map |
| `Msgpack.TwoItemsEncode` | output/fastmsgpack/encodecollections.go:8-11 | a two-element array decodes to its elements |
| `Msgpack.TimeEncodes` | output/fluentdforward/eventtime.go:12-16 | the EventTime extension decodes to seconds and nanoseconds modulo 2^32 |
| `Msgpack.Write2` | output/fastmsgpack/common.go:4-8 | two bytes, big-endian, modulo 2^16 |
| `Msgpack.Write4` | output/fastmsgpack/common.go:11-17 | four bytes, big-endian, modulo 2^32 |
| `Msgpack.EncodeString` | output/fastmsgpack/encodecollections.go:44-62 | header and bytes in the narrowest form, and nothing else changed |
| `Msgpack.EncodeEventTime` | output/fluentdforward/eventtime.go:12-16 | the ten bytes of the EventTime extension, for times before 1970 too |
| `Rewriters.Rewriter.WriteFieldBody` | rewrite/rinline/rinline.go:63-72 | a chain writes exactly the rewritten value and sets the flag of the record |
| `Rewriters.Rewriter.RewrittenFits` | rewrite/rinline/rinline.go:55-61 | what a chain writes is never longer than MaxFieldLength says |
| `Rewriters.WriteUnescaped` | rewrite/runescape/runescape.go:52-62 | the terminal rewriter unescapes once per record and copies the value otherwise |
| `Rewriters.UnescapeTransform` | transform/tunescape/tunescape.go:47-63 | the transform unescapes its field once per record |
| `Rewriters.RewriterAgreesWithTransform` | rewrite/runescape/runescape.go:48-62 | unescaping while serializing gives the output and the flag that the transform before it gives if and only if the chain does not inline the very field it unescapes, or the record counts as unescaped, or unescaping changes nothing |
| `Rewriters.RewriterDisagrees` | rewrite/rinline/rinline.go:63-72 | a chain that inlines its own field, and a value for which the two differ |
| `RoutingSpec.EveryRecordGoesThrough` | orchestrate/obykeyset/orchestrator.go:122-163 | after any calls of Accept, Tick and Close, for every merged key the batches sent and then the pending records are the accepted records of that key in order |
| `RoutingSpec.BatchesAreGood` | orchestrate/obykeyset/channelinputbuffer.go:35-60 | no batch is empty or over the record limit, and without its last record it is below the byte limit; pending records are below both |
| `RoutingSpec.CloseSendsAll` | orchestrate/obykeyset/orchestrator.go:140-144 | after Close nothing is pending: the batches of a key are all its records |
| `RoutingSpec.TickSendsDue` | orchestrate/obykeyset/orchestrator.go:151-163 | after Tick nothing pending was last flushed an interval ago or longer |
| `RoutingSpec.MergedKeysCollide` | util/localcachedmap/localcachedmap.go:98-101 | any two neighbouring keys of any tuple may be cut at any other place: the merged key stays the same, so different tuples share it |
| `RoutingSpec.MergedKeysDiffer` | util/localcachedmap/localcachedmap.go:98-101 | tuples whose keys have the same lengths have the same merged key only if they are equal |
| `KeyRouting.Sink.Accept` | orchestrate/obykeyset/orchestrator.go:122-133 | the loop over records does to the caches what the specification says; in the pipeline of every key, the arrays this sink has sent contain, in order, what its cache has sent, and no array that was sent is changed |
| `KeyRouting.Sink.FlushAllLocalBuffers` | orchestrate/obykeyset/orchestrator.go:151-163 | every due buffer is flushed and no other, in whatever order the map is walked; the pipelines hold what was sent and no array that was sent is changed |
| `KeyRouting.Sink.GetOrCreate` | util/localcachedmap/localcachedmap.go:97-118 | the cache of the merged key, made if missing, wraps the one global object of that key |
| `KeyRouting.Sink.MergeKeys` | util/localcachedmap/localcachedmap.go:98-102 | the loop concatenates the keys |
| `KeyRouting.GlobalCachedMap.GetOrCreate` | util/localcachedmap/localcachedmap.go:73-83 | an existing object is returned as it is; a new one is made once, and the counter stays the size of the map |
| `KeyRouting.OnePipelinePerKey` | util/localcachedmap/localcachedmap.go:73-83 | two keys have the same object if and only if they are equal |
| `KeyRouting.ChannelInputBuffer.Append` | orchestrate/obykeyset/channelinputbuffer.go:35-43 | the record is put into the pending array, the result says whether a limit is reached, and what was sent stays as it is |
| `KeyRouting.ChannelInputBuffer.Flush` | orchestrate/obykeyset/channelinputbuffer.go:46-60 | a fresh copy of the pending records goes into the channel behind all that was sent before, and the pending array is used again |
| `KeyRouting.PipelineHoldsSent` | orchestrate/obykeyset/channelinputbuffer.go:46-60 | what a sink has put into the pipeline of a key, read in order, is what its cache has sent, in arrays that records are no longer put into |
| `KeyRouting.SentByOne` | orchestrate/obykeyset/channelinputbuffer.go:46-60 | a message adds to what its sender has sent and to that of no other sender of the same channel |
| `Packing.WorkerDelivers` | base/bsupport/logprocessingworker.go:49-105 | for each output: after onStop, the accepted chunks hold exactly the passing records in order and within limits, as this output serializes what the transforms, with their state, and the outputs before it have left of them |
| `Packing.AllPassingWritten` | base/bsupport/logprocessingworker.go:49-81 | an output is told to write the passing records of all inputs in order, each as the outputs before have left it, whatever ticks come between |
| `Packing.LogProcessingWorker.OnInput` | base/bsupport/logprocessingworker.go:49-81 | the nested loops give every passing record to the outputs in turn, with what one output changes in the record seen by the next, and the state of the transforms kept between records and calls |
| `Packing.LogProcessingWorker.OnTick` | base/bsupport/logprocessingworker.go:83-90 | a tick flushes all outputs if an interval has passed since the start, and else none; the time it counts from is never renewed |
| `Packing.LateTicksAllFlush` | base/bsupport/logprocessingworker.go:83-90 | with a clock that does not go back, every tick after one that flushes does so too |
| `Packing.FlushesTooEarlyIff` | base/bsupport/logprocessingworker.go:83-90 | a tick flushes less than an interval after the last flush if and only if some tick has flushed less than an interval ago |
| `Packing.TwoTicksFlush` | base/bsupport/logprocessingworker.go:83-90 | two ticks at the same time, one interval after the start, both flush |
| `Packing.LateRecordChunkedAlone` | base/bsupport/logprocessingworker.go:83-105 | a record that comes between two late ticks gets a chunk of its own |
| `Outputs.OwnStreamIff` | base/bsupport/logprocessingworker.go:62-80 | an output gets for a record what it would get on its own if and only if the record was marked as unescaped before, or no Fluentd output before it unescapes a field of it, or the first field it would unescape itself has nothing to unescape |
| `Outputs.SeenRecord` | base/bsupport/logprocessingworker.go:62-80 | a record reaches an output with nothing but that mark changed, and when it is set |
| `Outputs.StreamDecodes` | output/fluentdforward/eventserializer.go:82-85 | what a Fluentd output writes decodes to the event of the record as marked by the outputs before it |
| `Outputs.WorkerDeliversEvents` | base/bsupport/logprocessingworker.go:49-105 | the chunks of a Fluentd output of a worker consist, in order, of encodings of these events |
| `Outputs.TwinOutputsDiffer` | rewrite/runescape/runescape.go:52-62 | two outputs of the same configuration that get different streams for the same record |
| `Packing.LogProcessingWorker.OnStop` | base/bsupport/logprocessingworker.go:92-95 | all outputs are flushed |
| `PackingSpec.PacksGreedily` | output/shared/messagepacker.go:26-59 | the chunks are the greedy groups of the records by true payload length, each with its full payload, numbered in order of creation |
| `PackingSpec.ChunksHoldAllRecords` | output/shared/messagepacker.go:26-59 | after a final flush the groups are all records in order, each within limits |
| `PackingSpec.CanAppendIffFits` | output/datadog/chunk.go:96-107 | the program's arithmetic allows one more record if and only if the full payload with it, such as the JSON array with its brackets and commas, is within the limits |
| `PackingSpec.GroupsKeepAll` | output/shared/messagepacker.go:26-43 | nothing is lost, doubled or reordered |
| `PackingSpec.GroupsWithinLimits` | output/fluentdforward/chunk.go:96-107 | no chunk is empty or over the record limit, and one of two or more records is within the byte limit |
| `Packing.IntermediateChunk.Write` | output/datadog/chunk.go:47-70 | payload and both counters after a record, for both formats |
| `Packing.IntermediateChunk.CanAppendData` | output/fluentdforward/chunk.go:96-107 | the decision of the specification |
| `Packing.IntermediateChunk.FinalizeChunk` | output/fluentdforward/chunk.go:62-94 | the finished payload, compressed and encoded if so configured; the shared buffer is empty again |
| `Packing.MessagePacker.WriteStream` | output/shared/messagepacker.go:26-43 | the new state and the finished chunk, if any |
| `Packing.MessagePacker.FlushBuffer` | output/shared/messagepacker.go:45-59 | the new state and the finished chunk, if any |
| `Unpacking.PayloadDecodes` | output/fluentdforward/chunk.go:45-60 | the payload of a Fluentd chunk decodes to the values of its records, in order |
| `Unpacking.CountedIsContainedIff` | output/fluentdforward/chunk.go:45-60 | the number of records of a Fluentd chunk is the number of events its payload decodes to if and only if no stream in it is empty |
| `Unpacking.PayloadSplits` | output/datadog/chunk.go:47-94 | the payload of a Datadog chunk, cut at the commas outside of strings and nested values, is exactly its records |
| `Unescape.RunToBuffer` | util/stringunescape/unescape.go:73-102 | the in-place loop writes exactly the recursive meaning of the string and never more than the length of the source |
| `Unescape.Run` | util/stringunescape/unescape.go:55-61 | the result is the recursive meaning |
| `Unescape.FindFirstUnescaped` | util/stringunescape/unescape.go:35-52 | the first target outside of escape sequences |
| `Unescape.UnescapedAtTarget` | util/stringunescape/unescape.go:35-52 | at that index the meaning is the meaning before, the target and the meaning after |
| `Redact.RedactEmail` | transform/tredactemail/redactemail.go:32-39 | the result is the text with its addresses replaced |
| `Redact.RedactEmail1` | transform/tredactemail/redactemail.go:59-93 | the scan from the first candidate gives that text and the number of addresses |
| `Redact.FindFirst` | transform/tredactemail/redactemail.go:41-57 | the first '@' between two word characters; there is none before it |
| `Redact.FindEmailStart` | transform/tredactemail/redactemail.go:104-118 | the user name begins after the last character that is in no address, unless a slash goes before |
| `Redact.FindEmailEnd` | transform/tredactemail/redactemail.go:121-160 | the address ends with the last address character, if the domain is acceptable |
| `Redact.FindEmailBoundary` | transform/tredactemail/redactemail.go:95-101 | both boundaries exist if and only if the candidate is accepted |
| `RedactSpec.EveryAtDecided` | transform/tredactemail/redactemail.go:66-90 | every '@' of the text is redacted if and only if it is accepted where its turn comes, after the address before it |
| `RedactSpec.AddressesWellFormed` | transform/tredactemail/redactemail.go:66-75 | each replaced interval has exactly one '@', between word characters, and else only address characters |
| `RedactSpec.OrderedPairs` | transform/tredactemail/redactemail.go:66-75 | replaced intervals are disjoint and in order |
| `RedactSpec.RedactionCountsAts` | transform/tredactemail/redactemail.go:59-93 | exactly one '@' goes away per address, so the text changes if and only if it has an address |
| `RedactSpec.NotIdempotent` | transform/tredactemail/redactemail.go:32-39 | redacting "a@b.c.@d.e" twice gives something else than redacting it once |
| `RedactTwice.ChangesAgainIff` | transform/tredactemail/redactemail.go:32-39 | a second pass changes the text if and only if, by the addresses of the first pass, some '@' stands right behind an address that ended in no word character and before a good domain of its own, or right before a gapless row of addresses up to the end of the text and behind a good user name |
| `RedactTwice.AcceptedNextIff` | transform/tredactemail/redactemail.go:59-93 | each '@' that the first pass leaves is accepted next if and only if it is at a place of these two kinds |
| `RedactTwice.UserUnchanged` | transform/tredactemail/redactemail.go:104-118 | replacing addresses before a user name does not change whether a slash goes before it |
| `RedactTwice.DomainUnchanged` | transform/tredactemail/redactemail.go:121-160 | nor, behind it, the quality of a domain that does not begin with an address |
| `RedactTwice.LeftBehindADot` | transform/tredactemail/redactemail.go:32-39 | the '@' that is left in "a@b.c.@d.e" is at a place of the first kind |
| `RedactTwice.ReplacedDomain` | transform/tredactemail/redactemail.go:32-39 | "x@a@b.c" becomes "x@REDACTED" and then "REDACTED" |
| `ExtractSpec.ExtractsExactlyLabels` | transform/textractspecial/stringextractor.go:166-206 | extraction panics if and only if there is neither a right boundary nor a table, and the text begins with the left boundary and has a byte more; else it succeeds if and only if the text is left + raw + right + rest with raw valid, in range and ending at the first right boundary (or, without one, as long as the table allows), and gives the trimmed raw label and the rest |
| `ExtractSpec.LabelIsRaw` | transform/textractspecial/stringextractor.go:166-206 | such a decomposition is unique and found |
| `ExtractSpec.ShorterIffLabel` | transform/textractspecial/textractspecial.go:80-93 | the text gets shorter if and only if there was a label, as the transform assumes |
| `ExtractMirror.ExtractMirrored` | transform/textractspecial/stringextractor.go:212-259 | extraction at the end is extraction at the start of the reversed text with reversed, swapped boundaries |
| `ExtractMirror.ExtractsLabelsAtEnd` | transform/textractspecial/stringextractor.go:212-259 | at the end too: when extraction panics, when it succeeds, and what it gives, with the last left boundary |
| `ExtractMirror.ShorterIffLabelAtEnd` | transform/textractspecial/textractspecial.go:80-93 | the text gets shorter if and only if there was a label at its end |
| `ExtractMirror.LabelAtEndIsRaw` | transform/textractspecial/stringextractor.go:212-259 | a label at the end is unique and found |
| `ExtractMirror.TrimMirrored` | transform/textractspecial/stringextractor.go:283-299 | trimming is the same from both sides |
| `Extract.ExtractLabelAtStart` | transform/textractspecial/stringextractor.go:166-206 | the program computes the specified label and rest, or panics where the specification does |
| `Extract.ExtractLabelAtEnd` | transform/textractspecial/stringextractor.go:212-259 | the program computes the specified label and rest, or panics where the specification does |
| `Extract.MatchValidCharsFromStart` | transform/textractspecial/stringextractor.go:262-270 | the end of the valid part; without a table, a panic on the first byte |
| `Extract.MatchValidCharsFromEnd` | transform/textractspecial/stringextractor.go:273-281 | the beginning of the valid part; without a table, a panic on the last byte |
| `Extract.TrimControlCharsAndSpaces` | transform/textractspecial/stringextractor.go:283-299 | the text without control characters and spaces around it |
| `Extract.Transform.Apply` | transform/textractspecial/textractspecial.go:80-93 | with a label at its end of the text, the rest and the trimmed label are stored; without one nothing changes; a panic if and only if the extractor has neither a far boundary nor a table, and the text has the near boundary and a byte more |
| `ExtractPattern.SplitPattern` | transform/textractspecial/stringextractor.go:91-109 | the pattern is cut at its first unescaped star, else at its first unescaped bracket; unescaped as a whole it is left + star + right; both errors exactly when there is nothing to cut at or close |
| `ExtractPattern.FillListed` | transform/textractspecial/stringextractor.go:135-159 | the table is exactly the listed bytes and ranges; an error or a hang if and only if two hyphens meet or a range ends in byte 255, whichever comes first |
| `ExtractPattern.FillValidChars` | transform/textractspecial/stringextractor.go:112-160 | the table for a bracket expression, negated by a caret; the error for an empty one, and exactly when the loop fails or hangs |
| `ExtractPattern.NewStringExtractorSimple` | transform/textractspecial/stringextractor.go:36-75 | a pattern that can be split never fails for its wildcard, and gives the extractor of its parts or the failure of its brackets; the extractor can be used on every text if and only if the pattern is not cut at a star with nothing on the far side |
| `ExtractPattern.OpenEndedPanics` | transform/textractspecial/stringextractor.go:36-75 | "F*" for the head of a text makes an extractor that panics on "FB" |
| `ExtractPattern.HangsOnLastByte` | transform/textractspecial/stringextractor.go:135-159 | a bracket expression with a range up to byte 255 hangs |
| `PercentageDrop.DropTransform.Transform` | transform/tdrop/tdrop.go:65-85 | decision and totals for every record |
| `PercentageDrop.AfterBalanced` | transform/tdrop/tdrop.go:65-85 | over any run the drops d of m matched records at rate r satisfy -r <= 100d - rm <= 99 - r, and the totals count them |
| `PercentageDrop.DropsAreTheTargetShare` | transform/tdrop/tdrop.go:65-85 | after m >= 1 matched records, d is r(m-1)/100 rounded up |
| `PercentageDrop.EveryHundredLosesTheRate` | transform/tdrop/tdrop.go:65-85 | any 100 consecutive matched records lose exactly r |
| `PercentageDrop.FullRateDropsAllMatched` | transform/tdrop/tdrop.go:65-85 | at 100 percent every matched record is dropped |
| `ChunkIds.ChunkIDGenerator.Generate` | output/shared/chunkidgen.go:27-38 | the new ID and the new state for every clock reading |
| `ChunkIds.IdsAscendIffClockDoes` | output/shared/chunkidgen.go:27-38 | below the limits of the number formats, successive IDs ascend as strings if and only if successive clock readings do not go back |
| `ChunkIds.IdsSortByCreation` | output/shared/chunkidgen.go:27-38 | with a clock that never goes back all IDs are distinct and sort in the order of creation |
| `ChunkIds.ClockGoingBackRepeatsAnId` | output/shared/chunkidgen.go:27-38 | the readings 5, 3, 6, 3 repeat an ID |
| `ChunkIds.IdsRepeatIff` | output/shared/chunkidgen.go:27-38 | two IDs of a generator are the same if and only if their clock readings are, and come equally many readings after the last one before each that was above all earlier ones |
| `ChunkIds.ClockGoingBackMayNotRepeat` | output/shared/chunkidgen.go:27-38 | the readings 5, 3 give distinct IDs in the wrong order |
| `Syslog.SyslogParser.Parse` | input/syslogparser/syslogparser.go:105-178 | the record, the drop or the panic for every input, and the counters |
| `Syslog.FillRest` | input/syslogparser/syslogparser.go:150-159 | the loop takes six fields by spaces, or fails |
| `Syslog.TestRecordStart` | input/syslogprotocol/recordtest.go:4-28 | true if and only if there are 32 bytes that begin with "<", one to three digits and ">1 " |
| `SyslogSpec.CrashesIff` | input/syslogparser/syslogparser.go:117-123 | the parser panics if and only if there are 32 bytes that begin with "< " |
| `SyslogStream.StreamCrashesIff` | input/tcplistener/multilinereader.go:93-124 | without flush and overflow, some record of a stream makes the parser panic if and only if the stream begins with "< " and its first record has been emitted with 32 bytes or more |
| `SyslogStream.CrashesIffAfterReset` | input/tcplistener/multilinereader.go:62-147 | after a flush or an overflow only the next record can, and it does if and only if it has 32 bytes and begins with "< " |
| `SyslogStream.ResetsEmitHeads` | input/tcplistener/multilinereader.go:62-147 | what a flush or an overflow itself emits never does |
| `SyslogStream.TwoLinesCrash` | input/tcplistener/tcplinelistener.go:141-195 | a stream of two lines that makes the parser panic |
| `SyslogSpec.StartPassesPri` | input/syslogparser/syslogparser.go:111-132 | whatever the record test accepts has a PRI number from 0 to 999 for the parser |
| `SyslogSpec.StartNeverCrashes` | input/syslogparser/syslogparser.go:111-159 | such input never makes the parser panic and is dropped only for a PRI of 192 or more or for missing fields |
| `SyslogSpec.NextFieldBySpace` | input/syslogparser/syslogparser.go:204-210 | the text is the field, a space and the rest, with no space in the field; none only if there is no space |
| `SyslogSpec.PrintedBackIff` | input/syslogparser/syslogparser.go:105-178 | with distinct level names, printing a parsed record gives the input back if and only if its PRI is written canonically and its message was neither cut off nor changed by cleaning |
| `SyslogSpec.PrintedBack` | input/syslogparser/syslogparser.go:105-178 | so it does for canonical input below the record size limit with a message within its own |
| `SyslogSpec.ParsedBack` | input/syslogparser/syslogparser.go:105-178 | parsing a printed record gives the record back |
| `SyslogSpec.PriIsBack` | input/syslogparser/syslogparser.go:134-146 | PRI = 8 * facility + severity (section 6.2.1 of RFC 5424), recovered from the two names |

## Left out

- Sockets, TLS, HTTP, handshakes, signals and file system calls: their answers are parameters. A write that stores only
  part of the data without an error is not modelled, nor are files changed by others.
- Delivery.Apply: the goroutines are steps of a transition system on values, not methods; ordering below one channel
  operation, callback or gauge update is not modelled. The last wait for the acknowledger is taken not to time out.
- HybridBuffer.Apply: likewise; unloading, loading and removing a file are one step each. IDs are taken to be distinct
  and not empty, and nothing is taken to call Accept after Destroy.
- HybridBufferer.Bufferer.Accept: a call without interruption; interleaved calls are covered by the transition system.
- The gauges of transient and persistent queued chunks, and waiting for pending chunks before a full shutdown.
- Time limits that the program reports as bugs: flushing to a pipeline and stopping a feeder are taken to succeed.
- Calls of several sinks at the same time; the shared map is proved per call, under its mutex. Initial pipelines and
  shutdown of the orchestrator.
- EventSerializer.EventSerializer.EncodeRecord: what is left in the buffer by an event longer than it; `Overlong` says
  on values how that ends. More than 65534 fields and strings of 2^32 bytes or more.
- EventSerializer.EventSerializer.SerializeRecord: likewise.
- Packing.IntermediateChunk.FinalizeChunk: compression and encoding are opaque functions that never fail; the retry after
  a failed flush is not modelled.
- Packing.LogProcessingWorker.OnInput: outputs are kept as values of what their packers do, and a record is handed from
  one to the next as a value; records are not recycled.
- Outputs.OwnStreamIff: events are taken to fit into the buffers of the serializers.
- PercentageDrop.DropTransform.Transform: totals are unbounded, so the overflow of 100 * dropped is not modelled.
- Syslog.SyslogParser.Parse: the clean-up of UTF-8 is a function that is not looked into; timestamps are not parsed.
- Logging, metrics other than the gauges and counters named, configuration, registries, matchers, templates and the
  reloading of configurations.
