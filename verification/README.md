# Verified model of ipc-checker

ipc-checker measures the latency of inter-process communication. A Producer sends
generated messages to a Consumer, both note a clock tick per message, both report their
ticks to an Analyzer, and the Analyzer pairs the ticks and prints quantiles. This project
models the parts of the program on which its results depend and proves their properties
with Dafny. `dafny verify dfyconfig.toml` checks all of it.

## How the model is built

**The shared-memory ring** (`Words`, `RingIndex`, `RingMachine`, `RingSafety`,
`RingTheorems`, `RingBuffer`). `RingIndex` writes the index arithmetic of the source with
its wrapping additions, complements and masks on 32-bit words, and relates the
(value, version) pair to an unbounded byte position; the 32-bit version wraps. `RingMachine`
splits `Push` and `Pop` into small steps (call, observe the other index, read the header,
move one byte, publish) that any scheduler interleaves, bytes in any order. An observation returns any
published index that is not older than the same thread's previous observation (read-read
coherence, section 6.9.2.1 of ISO/IEC 14882:2020). Every byte carries the number of the
publication that releases it; a load is guaranteed to return the last write only if the
loading thread has observed that publication, and otherwise returns an arbitrary byte.
`RingSafety` proves the invariant step by step, `RingTheorems` what it means for every
reachable state. `RingBuffer` is the class: array, index fields, and `Push` and `Pop` as
they run for one caller, each proved to be a run of the machine.

**Messages** (`Bytes`, `ByteBuffer`, `PackerSpec`, `Packers`, `EndToEnd`). The buffer is a
class with the two cursors and the byte loops of the source. `PackerSpec` defines the wire
format as an encoder and an independent schema-directed parser, and proves them inverse to
each other; the methods of `Packers` act on the buffer and are proved against both.
`EndToEnd` joins packers, buffer and ring.

**The measurement protocol** (`Fifo`, `Protocol`, `ProtocolSafety`, `ProtocolTheorems`,
`ProtocolThreads`, `Actors`). Producer, Consumer and the two threads of the Analyzer are a
state machine over three bounded first-in first-out channels, which the ring is proved to
refine. Payloads are real encodings and buffers keep their older bytes. A send that does not
fit makes its thread fail; the other threads go on. `Actors` holds the `Run` methods with
their loops; wherever an actor may have to wait, the other threads take arbitrary steps of
the machine, and every execution of `Run` is part of a run of it. A `Run` that waits for
something that nobody will ever send is said to hang.

**Evaluation** (`Statistics`, `Quantiles`, `Generator`). Tick storage, pairing,
interpolated quantiles over exact reals, and the cyclic message generator.

## Findings

- The assertion at ring_buffer.cpp:20 does not hold for every call: `AlignCapacity` with an
  argument above 2^32-4 violates it before the throw at line 186 is reached. It holds if
  and only if the argument is at most 2^32-4 (`RingIndex.AlignAssertExactly`), hence on
  every call that `ProcessMessage` makes.
- Reads are bounded by the end of the buffer, not by the write cursor (buffer.cpp:36,
  `ByteBuffer.Buffer.ReadBytes`). This is what lets a message be unpacked after a receive,
  which does not move the write cursor.
- The generator's switch to 35 characters (simple_round_generator.cpp:18) does not prevent
  equal messages altogether: for sizes that are multiples of 1260 all messages coincide
  (`Generator.AllMessagesCoincide`), and for no others do adjacent ones agree anywhere
  (`Generator.AdjacentMessages`).
- With zero messages both measurers are full at once, and statistics_impl.hpp:19 reads the
  first and the last element of empty lists (measurer.cpp:11 and 13), before
  quantiles.cpp:9 asserts that there is a sample. Such a run is finished before its first
  step, and zero is the only count for which this happens
  (`ProtocolTheorems.EmptyTickLists`, `Actors.Analyzer.Run`).
- A message or report that does not fit makes one process throw and leaves others waiting
  for ever: `ProtocolTheorems.RunsEnd` says which threads finish, and the `Run` methods of
  `Actors` return, throw or hang under conditions on the sizes alone.

## Model

| member | source | states |
|---|---|---|
| RingTheorems.PoppedIsPrefixOfPushed | src/connection/src/connectors/shared_memory/ring_buffer.cpp:99-180 | In every state of every interleaving, with every stale observation coherence allows, the payloads returned by `Pop` are a prefix of the payloads given to `Push`: same order, same bytes, each at the front of the buffer it was returned in. |
| RingTheorems.PublishedBytesDecode | src/connection/src/connectors/shared_memory/ring_buffer.cpp:127-145 | In every such state the raw bytes between the two published indices, walked record by record with the header words found there, decode to exactly the pending messages. |
| RingTheorems.StoresAreDisjoint | src/connection/src/connectors/shared_memory/ring_buffer.cpp:108-145 | However old the consumer index the producer decided from, every byte an in-flight `Push` may store differs, modulo the wrap, from every byte of a published record not yet released, and lies in space whose release the producer has observed. |
| RingTheorems.StoreAndLoadNeverCollide | src/connection/src/connectors/shared_memory/ring_buffer.cpp:127-142 | An in-flight `Push` never stores to an address that an in-flight `Pop` copies from. |
| RingTheorems.LoadsAreVisible | src/connection/src/connectors/shared_memory/ring_buffer.cpp:148-174 | Every byte a `Pop` copies belongs to a publication the consumer has observed, so release/acquire forces its value: the byte that was pushed. |
| RingTheorems.PublishedIsVisible | src/connection/src/connectors/shared_memory/ring_buffer.cpp:144-153 | A load of a published byte may yield exactly the pushed byte once the consumer has observed the publication of its record, and any byte until then. |
| RingTheorems.UnpublishedIsInvisible | src/connection/src/connectors/shared_memory/ring_buffer.cpp:127-145 | A byte stored by a `Push` that has not published yet guarantees a load nothing. |
| RingTheorems.PushRejection | src/connection/src/connectors/shared_memory/ring_buffer.cpp:99-103 | `Push` throws exactly when header plus payload exceed the capacity, also where the 64-bit sum wraps; a throw changes nothing. |
| RingTheorems.PopRejection | src/connection/src/connectors/shared_memory/ring_buffer.cpp:148-161 | `Pop` throws exactly when the caller's buffer is shorter than the oldest pending message; memory, indices and messages stay as they were, and otherwise the copy length is that message's length. |
| RingTheorems.PushAssertionsHold | src/connection/src/connectors/shared_memory/ring_buffer.cpp:108-125 | The three assertions of the waiting loop hold for every admissible observation, stale or fresh. |
| RingTheorems.PushProcessMessageAssertionsHold | src/connection/src/connectors/shared_memory/ring_buffer.cpp:43-70 | No assertion of `ProcessMessage` or of its alignment calls fails when a `Push` reaches it. |
| RingTheorems.PopProcessMessageAssertionsHold | src/connection/src/connectors/shared_memory/ring_buffer.cpp:162-174 | The same for a `Pop` working from the header word it has loaded. |
| RingTheorems.Conservation | src/connection/src/connectors/shared_memory/ring_buffer.cpp:99-125 | In every reachable state the free size computed from the two published indices plus the aligned sizes of the pending records is the capacity, and the test on the unaligned size admits a message exactly when its aligned record fits. |
| RingTheorems.RefinesFifo | src/connection/src/connectors/shared_memory/ring_buffer.cpp:99-180 | Refinement: the pending messages change as a bounded first-in first-out channel, a message being appended only where the channel admits it and only the oldest being removed; all other steps leave the queue alone. |
| RingTheorems.WaitsLikeFifo | src/connection/src/connectors/shared_memory/ring_buffer.cpp:108-153 | With an up-to-date observation a waiting `Push` proceeds exactly when the channel admits its message and a waiting `Pop` exactly when the channel is not empty; with any older one a `Push` proceeds exactly when its aligned record fits in front of the index seen, a capacity further on. |
| RingTheorems.PushProceedsExactly | src/connection/src/connectors/shared_memory/ring_buffer.cpp:108-125 | A waiting `Push` may observe any consumer index from its previous observation on. It leaves the loop exactly if its aligned record ends at most a capacity behind the position observed, however old that is; nothing else changes. |
| RingTheorems.PopProceedsExactly | src/connection/src/connectors/shared_memory/ring_buffer.cpp:151-153 | A waiting `Pop` may observe any producer index from its previous observation on, and leaves the loop exactly if that index publishes a record it has not read. |
| RingTheorems.EnabledExactly | src/connection/src/connectors/shared_memory/ring_buffer.cpp:99-180 | Which small steps a reachable state allows, in terms of the messages: every call, every observation from the previous one on, and the bytes of the current record in any order, each load having exactly one outcome. |
| RingTheorems.EmptyRingAdmits | src/connection/src/connectors/shared_memory/ring_buffer.cpp:101-125 | An empty ring lets every message through that fits the capacity at all, wherever its index stands; so a producer that must wait has a pending message before it. |
| RingTheorems.NonEmptyRingYields | src/connection/src/connectors/shared_memory/ring_buffer.cpp:151-153 | A waiting `Pop` that looks at the latest producer index gets on as soon as a message is pending. |
| RingTheorems.SomeoneProceeds | src/connection/src/connectors/shared_memory/ring_buffer.cpp:99-180 | Whenever a `Push` and a `Pop` are both under way and the reader's buffer is large enough, one of them has an enabled step that advances it. |
| RingTheorems.EffortDecreases | src/connection/src/connectors/shared_memory/ring_buffer.cpp:99-180 | Per step: advancing steps use up effort, and only a new call adds any, by at most the capacity plus 3. |
| RingTheorems.EffortBoundsRun | src/connection/src/connectors/shared_memory/ring_buffer.cpp:99-180 | Over whole runs: the steps that advance a thread number at most the effort at the start plus the capacity and 3 for each call, so no operation copies or publishes forever. |
| RingSafety.StepKeepsInv | src/connection/src/connectors/shared_memory/ring_buffer.cpp:99-180 | Every small step of `Push` and `Pop` keeps the invariant: indices stand for unbounded positions, records are in memory with visible stamps, the writer stays within a capacity of what it has observed. |
| RingSafety.RunKeepsInv | src/connection/src/connectors/shared_memory/ring_buffer.cpp:99-180 | Hence every state of every run satisfies it. |
| RingSafety.ObservedFree | src/connection/src/connectors/shared_memory/ring_buffer.cpp:108-125 | From any consumer index a thread may still observe, the masked free size is the distance to it, the assertions hold, and the unaligned admission test is exact. |
| RingSafety.ObservedNonEmpty | src/connection/src/connectors/shared_memory/ring_buffer.cpp:149-153 | An observed producer index equals the consumer's own, value and version, exactly if it publishes no unread record, even after the version has wrapped. |
| RingSafety.LoadedHeader | src/connection/src/connectors/shared_memory/ring_buffer.cpp:155-161 | The header word a `Pop` loads is the length of the oldest unread payload, and that record fits the ring. |
| RingSafety.LoadedByte | src/connection/src/connectors/shared_memory/ring_buffer.cpp:166-172 | Each byte a `Pop` copies is the byte of the same rank of the oldest unread payload. |
| RingSafety.CurrentRecord | src/connection/src/connectors/shared_memory/ring_buffer.cpp:155-161 | All bytes of the record a `Pop` reads, header included, are in memory and visible to it. |
| RingIndex.ProcessMessageAdvances | src/connection/src/connectors/shared_memory/ring_buffer.cpp:43-70 | Partner on unbounded positions: on every path and every lap `ProcessMessage` advances the position by exactly 4 + align4(payload), none of its assertions fails, and the address of each record byte is the offset of its position. |
| RingIndex.ProcessMessagePlain | src/connection/src/connectors/shared_memory/ring_buffer.cpp:48-67 | The branchless wrapping 32-bit expressions equal a plain if/else on integers. |
| RingIndex.ProcessMessageAssertsHold | src/connection/src/connectors/shared_memory/ring_buffer.cpp:46-68 | For all aligned capacities up to 2^32-4: the header does not straddle the end, the aligned fitting part stays in the array, the new index stays below the capacity. |
| RingIndex.PlainDistance | src/connection/src/connectors/shared_memory/ring_buffer.cpp:60-67 | The new index is the old one moved by the record size, minus a lap exactly when the version is bumped. |
| RingIndex.HeaderFits | src/connection/src/connectors/shared_memory/ring_buffer.cpp:45-46 | An aligned offset below an aligned capacity leaves room for a header. |
| RingIndex.FreeSizePlain | src/connection/src/connectors/shared_memory/ring_buffer.cpp:111-121 | The masked free-size expression equals the plain case split on the versions. |
| RingIndex.FreeSizeMeaning | src/connection/src/connectors/shared_memory/ring_buffer.cpp:111-121 | For two positions at most a capacity apart it is the capacity minus their distance, and the loop's assertions hold. |
| RingIndex.AdmissionIsAligned | src/connection/src/connectors/shared_memory/ring_buffer.cpp:122-124 | Comparing the unaligned record size with a free size that is a multiple of 4 accepts exactly when the aligned record fits. |
| RingIndex.EqualIndexIsEqualPosition | src/connection/src/connectors/shared_memory/ring_buffer.cpp:28-30 | Two positions at most a capacity apart have equal indices exactly if they are equal: empty and full are always told apart. |
| RingIndex.NoAlias | src/connection/src/connectors/shared_memory/ring_buffer.cpp:127-141 | Positions less than a capacity apart never share an address. |
| RingIndex.IndexOfMeaning | src/connection/src/connectors/shared_memory/ring_buffer.cpp:24-30 | The index of a position is its remainder modulo the capacity and its lap count modulo 2^32. |
| RingIndex.AlignUp | src/connection/src/connectors/shared_memory/ring_buffer.cpp:17-22 | Rounds up to the next multiple of 4, and wraps to 0 above 2^32-4. |
| RingIndex.AlignAssertExactly | src/connection/src/connectors/shared_memory/ring_buffer.cpp:20 | The assertion inside the alignment holds if and only if the argument is at most 2^32-4. |
| RingIndex.AlignCapacityMeaning | src/connection/src/connectors/shared_memory/ring_buffer.cpp:182-190 | Throws exactly above 2^32-4 and otherwise returns the least multiple of 4 not below its argument; it is the identity exactly on the multiples of 4. |
| RingIndex.Up4Add | src/connection/src/connectors/shared_memory/ring_buffer.cpp:60-67 | Aligning a split payload part by part is aligning it whole, because the part before the end of the array is aligned. |
| Words.Masked | src/connection/src/connectors/shared_memory/ring_buffer.cpp:51-53 | Negating a truth value and masking with it selects the operand or 0. |
| Words.ClearLowBits | src/connection/src/connectors/shared_memory/ring_buffer.cpp:19 | Masking with the complement of 3 clears the two low bits of any 32-bit word. |
| RingMachine.HeaderRoundTrip | src/connection/src/connectors/shared_memory/ring_buffer.cpp:127-129 | The header word survives being stored as four bytes. |
| RingBuffer.SPSCRingBuffer.constructor | src/connection/src/connectors/shared_memory/ring_buffer.cpp:83-88 | A new ring holds no message. |
| RingBuffer.SPSCRingBuffer.Create | src/connection/src/connectors/shared_memory/ring_buffer.cpp:83-88 | Construction throws exactly for capacities that are not multiples of 4. |
| RingBuffer.SPSCRingBuffer.Push | src/connection/src/connectors/shared_memory/ring_buffer.cpp:99-146 | On the byte array and the index fields: throws exactly for messages larger than the ring, waits exactly while the aligned record does not fit, and otherwise appends the payload to the contents; each outcome is a run of the machine. |
| RingBuffer.SPSCRingBuffer.Pop | src/connection/src/connectors/shared_memory/ring_buffer.cpp:148-180 | Waits exactly on the empty ring, throws exactly if the oldest message is longer than the buffer, and otherwise removes it into the front of the buffer, leaving the bytes behind it and the ring's bytes alone. |
| RingBuffer.SPSCRingBuffer.CopyIn | src/connection/src/connectors/shared_memory/ring_buffer.cpp:127-142 | Header store and the two copies store every byte of the record at its address, as a sequence of machine steps. |
| RingBuffer.SPSCRingBuffer.CopyOut | src/connection/src/connectors/shared_memory/ring_buffer.cpp:162-174 | The two copies fetch every payload byte and leave the caller's buffer beyond it unchanged. |
| RingBuffer.SPSCRingBuffer.StoreRun | src/connection/src/connectors/shared_memory/ring_buffer.cpp:136-141 | One `memcpy` into the ring is a run of byte stores at the record's addresses. |
| RingBuffer.SPSCRingBuffer.LoadRun | src/connection/src/connectors/shared_memory/ring_buffer.cpp:167-172 | One `memcpy` out of the ring is a run of byte loads that changes nothing beyond the message. |
| EndToEnd.EveryDeliveryUnpacks | src/connection/include/connection/connectors/shared_memory/server_impl.hpp:8-10 | In every interleaving, if the pushed payloads encode a sequence of values then every buffer handed back by `Pop`, with whatever older bytes it still holds, unpacks from its start to the value of the same rank. |
| EndToEnd.PopNeverRejects | src/connection/include/connection/connectors/shared_memory/server_impl.hpp:8-10 | A `Pop` into a 10000-byte message buffer never rejects what was packed in one. |
| EndToEnd.ChannelIsRing | src/connection/src/connectors/shared_memory/ring_buffer.cpp:99-125 | The channels of the protocol are this ring: a payload is accepted exactly if `Push` does not throw for it, and a sender that observes the latest index proceeds exactly where the channel lets it. |
| EndToEnd.Send | src/connection/include/connection/connectors/shared_memory/client_impl.hpp:8-10 | Reset, pack and push: throws in the packer exactly when the encoding exceeds the buffer, throws in the ring exactly when it exceeds the capacity, waits exactly while it does not fit, and otherwise the contents grow by exactly the encoding. |
| EndToEnd.Receive | src/connection/include/connection/connectors/shared_memory/server_impl.hpp:8-10 | Reset, pop and unpack: if the oldest message encodes a value of the schema, that value is returned, although the write cursor stays at 0 and older bytes stay behind. |
| ProtocolTheorems.NoDeadlock | src/actors/include/actors/analyzer.hpp:36-66 | As long as some thread, for which everything fits, is not done, some thread can act, for any ring capacities and any number of messages, also after another thread has failed. |
| ProtocolTheorems.EnabledExactly | src/actors/include/actors/analyzer.hpp:36-66 | Which steps a state of a run allows, in counters and sizes: a thread waits exactly for room for the record of what it sends, or for something to receive; what can never fit is not waited for; and the clock may show any time from now on. |
| ProtocolTheorems.RunsEnd | src/actors/include/actors/producer.hpp:33-50 | Every run has at most 8 steps per message. When it can go no further, exactly those threads are done for which everything fits; the Producer has failed exactly if something it had to send does not fit, the Consumer exactly if all messages fit and its reports do not; and the Consumer has received exactly the messages before the first that does not fit. |
| ProtocolTheorems.FinalTicks | src/actors/include/actors/analyzer.hpp:61-66 | At the end of every finished run the Consumer has received the Producer's messages in order and the Analyzer holds exactly both tick lists in message order, all of one monotone clock. |
| ProtocolTheorems.FinalShippings | src/statistics/include/statistics/statistics_impl.hpp:11-19 | So shipping i is receive tick minus send tick of message i, non-negative and at most the total time, and so is every quantile reported. |
| ProtocolTheorems.RunKeepsCore | src/actors/include/actors/producer.hpp:33-50 | Along every run the invariant holds and each step is one unit of work or one failure. |
| ProtocolTheorems.WorkBound | src/actors/include/actors/consumer.hpp:33-50 | Work and failures together are at most 8 per message, and the work reaches that bound exactly in finished states. |
| ProtocolTheorems.EmptyTickLists | src/statistics/include/statistics/statistics_impl.hpp:18-19 | A run of no messages is finished before its first step, and no other finished run has an empty list of ticks. |
| ProtocolTheorems.DoneCompletes | src/actors/include/actors/consumer.hpp:33-50 | A thread is done only if everything fits that it sends, or that others have to send to it. |
| ProtocolSafety.StepKeepsCore | src/actors/include/actors/consumer.hpp:33-50 | Every step of every thread keeps the invariant (what is in each channel, who may have ticked what). A step that sends something unfit changes nothing but that its thread has failed; any other does one unit of work. |
| ProtocolSafety.ChannelsAreFifos | src/actors/include/actors/analyzer.hpp:36-66 | Each step changes each of the three queues as a bounded first-in first-out channel of its capacity: the same channel that the ring refines. |
| ProtocolThreads.OthersKeep | src/actors/include/actors/analyzer.hpp:37-59 | No step of the other threads touches a thread's own part of the state. |
| ProtocolThreads.WaitEnds | src/actors/include/actors/analyzer.hpp:61-62 | From any state of a run, a thread that is not done, but for which everything fits, is let on by steps of the other threads alone. |
| ProtocolThreads.OthersSettle | src/actors/include/actors/analyzer.hpp:61-62 | From any state of a run the other threads either let one of the waiting ones act or come to rest: they cannot keep each other busy forever. |
| ProtocolThreads.CollectedAll | src/actors/include/actors/analyzer.hpp:61-65 | When both collecting threads are full, every thread of the protocol is done. |
| Actors.Producer.Run | src/actors/include/actors/producer.hpp:33-50 | Whatever the other threads do meanwhile: returns exactly if everything it sends fits, and throws otherwise; it never hangs. It has sent exactly the packed messages before the first that does not fit, in order, and on return all of them and then exactly its packed ticks, as part of a run of the protocol. |
| Actors.Producer.SendMessages | src/actors/include/actors/producer.hpp:34-41 | The send loop: one tick and one packed message per generated text, up to the first that does not fit the buffer or the channel, where it throws. |
| Actors.Producer.SendTicks | src/actors/include/actors/producer.hpp:43-49 | The report loop: the packed ticks, in order; throws exactly if there are ticks and a report does not fit the channel. |
| Actors.Consumer.Run | src/actors/include/actors/consumer.hpp:33-50 | Whatever the other threads do meanwhile: hangs exactly if some message does not fit and so is never sent, throws exactly if all do but its reports do not, and returns otherwise. It has received and unpacked exactly the messages before the first that does not fit, and on return has sent exactly its packed ticks in order. |
| Actors.Consumer.ReceiveMessages | src/actors/include/actors/consumer.hpp:34-41 | Receive, unpack and tick until the measurer is full, with a buffer that keeps older bytes, or until no message will ever come. |
| Actors.Consumer.SendTicks | src/actors/include/actors/consumer.hpp:43-49 | The report loop: the packed ticks, in order; throws exactly if there are ticks and a report does not fit the channel. |
| Actors.Analyzer.Run | src/actors/include/actors/analyzer.hpp:36-66 | For every interleaving of the two collecting threads with the rest: never throws, returns exactly if everything both actors send fits, and hangs otherwise. On return the run is finished, the two tick lists are paired into the shippings, and the total time is the Consumer's last tick minus the Producer's first, at least every shipping; there is none exactly for a run of no messages. |
| Actors.Analyzer.Collect | src/actors/include/actors/analyzer.hpp:37-62 | The two collecting loops, their rounds interleaved in any order, until both measurers are full and can be joined, or one waits in vain. |
| Actors.CollectedPairing | src/actors/include/actors/analyzer.hpp:61-65 | With both collectors full the state is finished and the collected ticks are those of the two actors. |
| Actors.World.constructor | src/actors/include/actors/analyzer.hpp:25-33 | The start of a measurement, for any clock reading and any bytes in the buffers, is a state of a run. |
| Actors.World.Wait | src/connection/src/connectors/shared_memory/ring_buffer.cpp:108-125 | Blocking: the other threads take any steps after which one of the waiting threads may act, or nobody ever may; the waiting threads' own parts stay the same. |
| Actors.World.SendData | src/actors/include/actors/producer.hpp:40 | A send throws exactly if the bytes do not fit the channel at all; otherwise it appends exactly the used bytes of the buffer, at a moment when the channel admits them. |
| Actors.World.ReceiveData | src/actors/include/actors/consumer.hpp:36 | A receive leaves the next message's encoding at the front of the buffer and moves no cursor, or waits for ever in a state in which nobody can act. |
| ByteBuffer.Buffer.constructor | src/connection/src/buffer/buffer.cpp:7-9 | Both cursors start at the front of 10000 bytes. |
| ByteBuffer.Buffer.Reset | src/connection/src/buffer/buffer.cpp:11-14 | Both cursors return to the front; the bytes stay. |
| ByteBuffer.Buffer.WriteBytes | src/connection/src/buffer/buffer.cpp:26-33 | Throws exactly when the bytes do not fit behind the write cursor, changing nothing; otherwise they stand there, the cursor is behind them, and every byte before and behind them is the old one. |
| ByteBuffer.Buffer.ReadBytes | src/connection/src/buffer/buffer.cpp:35-42 | Throws exactly at the end of the buffer (not at the write cursor), changing nothing; otherwise copies and advances. |
| ByteBuffer.Buffer.WriteBytesInReverseOrder | src/connection/src/buffer/buffer.cpp:44-55 | The same with the bytes reversed by the byte loop. |
| ByteBuffer.Buffer.ReadBytesInReverseOrder | src/connection/src/buffer/buffer.cpp:57-68 | The same with the bytes reversed by the byte loop. |
| PackerSpec.ParseOfEncode | src/connection/include/connection/packers/packer.hpp:14-43 | For every nested schema and value and all three packers, unpacking returns the packed value and stops exactly behind its encoding, whatever bytes surround it. |
| PackerSpec.ParseOfEncodeAll | src/connection/include/connection/packers/packer.hpp:14-43 | Objects packed one after another unpack in the same order. |
| PackerSpec.EncodeOfParse | src/connection/include/connection/packers/packer.hpp:14-43 | Conversely, what unpacks is of the schema and the bytes consumed are exactly its encoding: no value has two representations. |
| PackerSpec.ParseOfString | src/connection/include/connection/packers/objects/string.hpp:10-22 | A length-prefixed string unpacks to its characters. |
| PackerSpec.StringOnWire | src/connection/include/connection/packers/objects/string.hpp:10-14 | A string is its length as eight bytes, in the order of packer and host, then its characters. |
| PackerSpec.PrimitiveOnWire | src/connection/include/connection/packers/network_packer/network_packer.hpp:21-61 | A primitive is its word in eight bytes, in the order of packer and host. |
| PackerSpec.FieldOnWire | src/connection/include/connection/packers/packer.hpp:14-23 | The fields of a struct lie in declaration order with nothing before, between or behind. |
| Bytes.LittleEndianDigit | src/connection/src/buffer/buffer.cpp:26-33 | Byte j of the little-endian form of a number is its digit j in base 256. |
| Bytes.BigEndianDigit | src/connection/src/buffer/buffer.cpp:44-55 | Byte j of the big-endian form in n bytes is digit n-1-j. |
| PackerSpec.PrimitiveRoundTrip | src/connection/include/connection/packers/objects/time_point.hpp:10-22 | A tick, integer or double pattern survives the trip through a 64-bit word, negative counts included. |
| PackerSpec.PrimitiveWordIs | src/connection/include/connection/packers/objects/time_point.hpp:10-14 | A non-negative integer or tick is written as that number, a negative one as 2^64 plus it; unsigned integers and double patterns as they are. |
| PackerSpec.WordRoundTrip | src/connection/include/connection/packers/network_packer/network_packer.hpp:21-61 | The bytes a packer writes for a word read back as that word, on either kind of host. |
| PackerSpec.WordOnto | src/connection/include/connection/packers/network_packer/network_packer.hpp:81-118 | Every eight bytes are the bytes of the word they read as. |
| PackerSpec.NetworkWordIsBigEndian | src/connection/include/connection/packers/network_packer/network_packer.hpp:21-61 | Both network packers put words on the wire in network byte order (Appendix B of RFC 791). |
| PackerSpec.LocalWordIsHostOrder | src/connection/include/connection/packers/local_packer/local_packer.hpp:19-32 | The local packer writes a word as it lies in the memory of its host: little-endian on a little-endian host, big-endian on a big-endian one. |
| PackerSpec.WordsRead | src/connection/include/connection/packers/network_packer/network_packer.hpp:81-118 | The local packer reads a word in the order of its host, the network packer one in network order on any host. |
| PackerSpec.HostIndependence | src/connection/include/connection/packers/network_packer/network_packer.hpp:21-65 | The reversing packer of a little-endian host and the copying packer of a big-endian host emit the same bytes for every value. |
| PackerSpec.CrossHostRoundTrip | src/connection/include/connection/packers/network_packer/network_packer.hpp:81-122 | Packing on one host and unpacking on any other returns the value. |
| PackerSpec.LocalCrossHost | src/connection/include/connection/packers/local_packer/local_packer.hpp:19-36 | The local packer has no such property: a host of the other byte order reads a word rightly exactly when its bytes are a palindrome. |
| Packers.SerializeWord | src/connection/include/connection/packers/network_packer/network_packer.hpp:21-61 | Appends the eight wire bytes of the word at the write cursor, or fails with nothing written before it. |
| Packers.SerializeString | src/connection/include/connection/packers/objects/string.hpp:10-14 | Appends length and characters. |
| Packers.Serialize | src/connection/include/connection/packers/packer.hpp:14-23 | The recursive dispatch appends exactly the encoding of the value. |
| Packers.Pack | src/connection/include/connection/packers/network_packer/network_packer.hpp:131-136 | Throws exactly when the encoding does not fit behind the write cursor; otherwise the buffer is overwritten with exactly the encoding. |
| Packers.DeserializeWord | src/connection/include/connection/packers/network_packer/network_packer.hpp:81-118 | Reads a word at the read cursor, or fails at the end of the buffer without moving it. |
| Packers.DeserializeString | src/connection/include/connection/packers/objects/string.hpp:16-22 | Reads length and characters; the cursor ends behind them. |
| Packers.Deserialize | src/connection/include/connection/packers/packer.hpp:34-43 | The recursive dispatch reads what the parser of the wire format reads, and leaves the cursor there. |
| Packers.Unpack | src/connection/include/connection/packers/network_packer/network_packer.hpp:138-142 | Returns a value exactly if its encoding lies at the read cursor, and leaves the cursor exactly behind it, whatever follows. |
| Statistics.Process | src/statistics/include/statistics/statistics_impl.hpp:3-20 | The loop over two cursors yields exactly the pairwise differences. The total time is the last receive tick minus the first send tick; there is none exactly if a list is empty, where the source reads an element that does not exist. |
| Statistics.TotalTime | src/statistics/include/statistics/statistics_impl.hpp:18-19 | There is a total time exactly if both lists have an element. |
| Statistics.ShippingBounds | src/statistics/include/statistics/statistics_impl.hpp:11-19 | With one clock every shipping is non-negative and at most the total time. |
| Statistics.QuantileBounds | src/statistics/include/statistics/statistics_impl.hpp:18-19 | So is every quantile of the shippings. |
| Statistics.Measurer.constructor | src/measurer/src/measurer.cpp:3-5 | Starts empty with room for exactly the given number of ticks. |
| Statistics.Measurer.Tick | src/measurer/src/measurer.cpp:7-9 | Appends one reading of the clock. |
| Statistics.Measurer.FirstTick | src/measurer/src/measurer.cpp:11 | The first stored tick, `None` standing for the element read from an empty list. |
| Statistics.Measurer.LastTick | src/measurer/src/measurer.cpp:13 | The last stored tick, `None` standing for the element read from an empty list. |
| Statistics.Measurer.ToFirst | src/measurer/src/measurer.cpp:15 | The cursor returns to the first tick. |
| Statistics.Measurer.HasNext | src/measurer/src/measurer.cpp:17-19 | True exactly before the end. |
| Statistics.Measurer.Next | src/measurer/src/measurer.cpp:21 | Returns the tick at the cursor and advances. |
| Statistics.Measurer.Count | src/measurer/src/measurer.cpp:23 | The number of ticks. |
| Statistics.Measurer.IsFull | src/measurer/src/measurer.cpp:25-27 | True exactly when the reserved room is used up. |
| Statistics.Measurer.PushBack | src/measurer/src/measurer.cpp:29-31 | Appends; room that is not used up stays the same. |
| Quantiles.GetDominance | src/statistics/src/quantiles/src/quantiles.cpp:13-30 | If a[i] <= b[i] for all i then every quantile of a is at most that of b. |
| Quantiles.GetMonotone | src/statistics/src/quantiles/src/quantiles.cpp:13-30 | Quantiles never fall as alpha rises, across index boundaries too. |
| Quantiles.GetIsFloor | src/statistics/src/quantiles/src/quantiles.cpp:17-29 | On sorted samples the result is the floor of the exact convex combination of two neighbours. |
| Quantiles.GetAtRank | src/statistics/src/quantiles/src/quantiles.cpp:17-29 | If alpha*(N-1) is k + f with k < N-1 and 0 <= f < 1, the result on sorted samples is the floor of sample k plus f times the distance to sample k+1. |
| Quantiles.GetAtWholeRank | src/statistics/src/quantiles/src/quantiles.cpp:17-29 | If alpha*(N-1) is a whole number k, the result is sorted sample k, the last one included. |
| Quantiles.QuantileAtRank | src/statistics/src/quantiles/src/quantiles.cpp:7-30 | The same for samples in any order, for every alpha from 0 to 1. |
| Quantiles.GetEnds | src/statistics/src/quantiles/src/quantiles.cpp:13-30 | Alpha 0 gives the least sample, alpha 1 the greatest. |
| Quantiles.GetIgnoresOrder | src/statistics/src/quantiles/src/quantiles.cpp:10-30 | The order of the samples does not matter. |
| Quantiles.GetShifts | src/statistics/src/quantiles/src/quantiles.cpp:13-30 | Adding c to every sample adds exactly c to every quantile. |
| Quantiles.GetCovers | src/statistics/src/quantiles/src/quantiles.cpp:13-30 | At least floor(alpha*(N-1))+1 samples are at most the quantile. |
| Quantiles.SortDominates | src/statistics/src/quantiles/src/quantiles.cpp:10 | Sorting preserves pointwise order. |
| Quantiles.SortSorts | src/statistics/src/quantiles/src/quantiles.cpp:10 | The sorted list is sorted and a permutation. |
| Quantiles.SortedUnique | src/statistics/src/quantiles/src/quantiles.cpp:10 | Any sorted permutation is that same list, so the sorting algorithm does not matter. |
| Quantiles.Quantiles.constructor | src/statistics/src/quantiles/src/quantiles.cpp:7-11 | Holds the samples, sorted. |
| Quantiles.Quantiles.Get | src/statistics/src/quantiles/src/quantiles.cpp:13-30 | Computes the interpolated value whose meaning at every rank alpha*(N-1) is stated by the lemmas above, with every list access in bounds. |
| Generator.SimpleRoundGenerator.constructor | src/generator/src/simple_round_generator.cpp:13-37 | Both loops end; there are exactly count messages of length S, and character j of message i is alphabet[(i*S + j) mod 36], or mod 35 when 36 divides S. |
| Generator.SimpleRoundGenerator.BuildMessage | src/generator/src/simple_round_generator.cpp:24-33 | The chunked inner loop produces the next stretch of the cyclic text. |
| Generator.CyclicExtend | src/generator/src/simple_round_generator.cpp:26-29 | Appending a stretch of the alphabet that does not pass the period continues the cyclic text. |
| Generator.EqualMessages | src/generator/src/simple_round_generator.cpp:17-33 | For S > 0, messages i and k are equal exactly when 36 divides (k-i)*S if 36 does not divide S, and exactly when 35 does if 36 divides S. |
| Generator.AgreeAt | src/generator/src/simple_round_generator.cpp:17-33 | They agree at a position exactly under the same condition, so they agree everywhere or nowhere. |
| Generator.AdjacentMessages | src/generator/src/simple_round_generator.cpp:18-19 | Adjacent messages differ at every position exactly when S is not a multiple of 1260. |
| Generator.AllMessagesCoincide | src/generator/src/simple_round_generator.cpp:18-19 | When S is such a multiple all messages coincide. |
| Generator.SimpleRoundGenerator.ToFirst | src/generator/src/simple_round_generator.cpp:39 | The cursor returns to the first message. |
| Generator.SimpleRoundGenerator.Next | src/generator/src/simple_round_generator.cpp:41 | Returns the message at the cursor and advances. |
| Generator.SimpleRoundGenerator.HasNext | src/generator/src/simple_round_generator.cpp:43-45 | True exactly before the end. |

## Left out

- Socket, pipe and Unix-socket connectors, `shm_open` and `mmap`: system calls. The rings are taken as connected and initialised, and the `atomic_flag` start-up handshake is not modelled.
- The full C++ memory model: only per-variable coherence and visibility of bytes written before an observed publication are modelled. Data races outside these rules, compiler reordering and `__restrict` are not.
- RingBuffer.SPSCRingBuffer.Push: the class runs for one caller at a time and returns a waiting outcome where the source spins; concurrent execution and stale observations are in `RingMachine`, whose theorems cover both operations.
- RingBuffer.SPSCRingBuffer.Pop: runs for one caller and returns a waiting outcome where the source spins, as `Push` does.
- RingMachine.HeaderRoundTrip: the four header bytes are laid out least significant first; any fixed order of one host would do.
- Actors.World.Wait: the other threads are steps of the protocol machine, and the channels of the machine are the abstract bounded channels that the ring is proved to refine; `Run` methods on concrete rings in separate processes are not composed in one program.
- Actors.Analyzer.Collect: the rounds of the two threads interleave as wholes; a round works on one thread's own buffer and measurer, and the single channel operation in it is atomic in the machine.
- ProtocolTheorems.NoDeadlock: the setting is that of `run_test`: equal counts in all four places and one connection type. Stand-alone set-ups with different counts or mixed connection types are not modelled.
- Each thread fails alone. An exception in a collecting thread would end the whole Analyzer, but the invariant (`ProtocolSafety.StepKeepsCore`) shows that there is none. The closing of a channel when a process ends, which sockets and pipes report to the other side, is not modelled.
- Clock ticks are counts in 0..2^63-1 of one clock that never runs backwards; nanosecond conversion is the identity.
- Statistics.Process: reading an element of an empty list is undefined in the source; it is modelled as there being no total time. The assertion that the counts are equal is not assumed, lists of different length being paired up to the shorter one as the code does.
- Statistics.Measurer.constructor: `vector::reserve(n)` is taken to give room for exactly n, and appending to a full list some larger room. Cursors start at 0 where the source leaves the iterator unset until `ToFirst`.
- Quantiles.Quantiles.Get: exact reals in place of `double`, so rounding is not modelled. The two assertions on alpha are preconditions.
- Quantiles.Quantiles.constructor: `std::sort` is represented by its result; `Quantiles.SortedUnique` shows that any sorted permutation is that result. The assertion that there is a sample is a precondition.
- Generator.SimpleRoundGenerator.constructor: the running index does not wrap at 2^64; it counts characters that are held in memory.
- ByteBuffer.Buffer.WriteBytes: the bound check is on natural offsets; wrap-around of the pointer sum is not modelled.
- Packers.DeserializeString: resizing the string to a size larger than the buffer is counted as the read failure that follows it.
- Doubles are 64-bit patterns without floating-point meaning.
- Argument parsing, connection strings, processor affinity, `fork` and `execv`, printing, and the compile-time plumbing of interfaces and mocks.
