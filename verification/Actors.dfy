/** The Producer, the Consumer and the Analyzer as objects whose `Run` methods loop over
    their buffers, measurers and channels. The other threads are arbitrary: whenever an
    actor may have to wait, they take any steps of the protocol machine, after which it may
    act or all threads have come to rest. So every execution of a `Run` method is part of a
    run of that machine, and what holds of all its runs holds here. */
module Actors {
  import opened Wrappers
  import opened Bytes
  import opened Fifo
  import opened ByteBuffer
  import opened PackerSpec
  import opened Packers
  import opened Generator
  import opened Statistics
  import opened Protocol
  import opened ProtocolSafety
  import opened ProtocolTheorems
  import opened ProtocolThreads
  import Sequences

  /** How a `Run` ends: normally, by an exception, or not at all because it waits for
      something that nobody will send. */
  datatype Outcome = Returns | Throws | Hangs

  /** The bytes of a text; generated texts are ASCII. */
  function TextBytes(text: string): (m: Message)
    ensures |m| == |text|
    ensures forall i :: 0 <= i < |text| && text[i] as int < 256 ==> m[i] == text[i] as int
  {
    if text == "" then [] else [text[0] as int % 256] + TextBytes(text[1..])
  }

  lemma PackedStrings(cfg: Config, ms: seq<Message>)
    ensures forall i :: 0 <= i < |ms| ==> PackStrings(cfg, ms)[i] == Encode(cfg.packer, VString(ms[i]))
  {
    hide PackStrings, Encode;
    forall i | 0 <= i < |ms| ensures PackStrings(cfg, ms)[i] == Encode(cfg.packer, VString(ms[i])) {
      PackStringsAt(cfg, ms, i);
    }
  }

  lemma PackedTicks(cfg: Config, ts: seq<int>)
    ensures forall i :: 0 <= i < |ts| ==> PackTicks(cfg, ts)[i] == Encode(cfg.packer, VPrimitive(PTick(ts[i])))
  {
    hide PackTicks, Encode;
    forall i | 0 <= i < |ts| ensures PackTicks(cfg, ts)[i] == Encode(cfg.packer, VPrimitive(PTick(ts[i]))) {
      PackTicksAt(cfg, ts, i);
    }
  }

  // ----- what the machine does at each call -----

  lemma ClockRuns(cfg: Config, s: State)
    requires Reached(cfg, s)
    ensures 0 <= s.now < TICK_LIMIT
  {
    ReachedCore(cfg, s);
  }

  /** Only a Producer that is done or has failed can be left behind for ever. */
  lemma ProducerNeverHangs(cfg: Config, s: State)
    requires Reached(cfg, s) && RingCapacities(cfg) && Stuck(cfg, s)
    ensures ProducerThread in s.failed || Done(cfg, s, ProducerThread)
  {
    hide Reached, Core, Completes, Done, Stuck, MessagesFit;
    ReachedCore(cfg, s);
    StuckOutcome(cfg, s);
  }

  /** A Consumer left behind has received everything before a message that does not fit. */
  lemma ConsumerHangs(cfg: Config, s: State)
    requires Reached(cfg, s) && RingCapacities(cfg) && Stuck(cfg, s)
    requires ConsumerThread !in s.failed && !Done(cfg, s, ConsumerThread)
    ensures !MessagesFit(cfg) && s.consumer.received == cfg.messages[..Sendable(cfg, cfg.messages)]
  {
    hide Reached, Core, Done, Stuck, Completes, MessagesFit, Sendable;
    ReachedCore(cfg, s);
    StuckOutcome(cfg, s);
  }

  /** A collecting thread left behind waits for what does not fit. */
  lemma CollectorHangs(cfg: Config, s: State, t: Thread)
    requires Reached(cfg, s) && RingCapacities(cfg) && Stuck(cfg, s) && !Done(cfg, s, t)
    ensures !Completes(cfg, t)
  {
    hide Reached, Core, Done, Stuck, MessagesFit, Completes;
    ReachedCore(cfg, s);
    StuckOutcome(cfg, s);
  }

  lemma SomethingUnsent(cfg: Config, s: State)
    requires WantsSend(cfg, s.producer) || WantsReport(cfg, s.producer)
    ensures !Done(cfg, s, ProducerThread)
  {
  }

  lemma AllReceived(cfg: Config, s: State)
    requires Reached(cfg, s) && s.consumer.received == cfg.messages
    ensures MessagesFit(cfg) && Sendable(cfg, cfg.messages) == |cfg.messages|
  {
    hide Reached, Core, MessageFits;
    ReachedCore(cfg, s);
    SentFits(cfg, s);
    DataIsUnreceived(cfg, s);
    SendableIs(cfg, cfg.messages, |cfg.messages|);
  }

  lemma TickFits(cfg: Config, capacity: nat, tick: int)
    ensures |PackTick(cfg, tick)| <= BUFFER_CAPACITY
    ensures Accepts(capacity, PackTick(cfg, tick)) <==> ReportFits(capacity)
  {
    TickSize(cfg, capacity, tick);
  }

  /** The message at the head of the data channel, and the buffer it is received into. */
  lemma DataArrives(cfg: Config, s: State)
    requires Reached(cfg, s) && Enabled(cfg, s, ConsumerReceive)
    ensures var c, payload := s.consumer, s.data[0];
            && |c.received| < |cfg.messages|
            && payload == PackString(cfg, cfg.messages[|c.received|])
            && HasSchema(VString(cfg.messages[|c.received|]), SString)
            && |payload| <= |c.buffer| == BUFFER_CAPACITY
            && Apply(cfg, s, ConsumerReceive) ==
               s.(data := s.data[1..],
                  consumer := c.(received := c.received + [cfg.messages[|c.received|]], buffer := Overlay(c.buffer, payload)))
  {
    hide Reached, Unpacked, Overlay, PackString;
    ReachedCore(cfg, s);
    HeadArrives(cfg, s);
  }

  lemma HeadArrives(cfg: Config, s: State)
    requires Core(cfg, s) && s.data != []
    ensures var n := |s.consumer.received|;
            && n < |cfg.messages| && s.data[0] == PackString(cfg, cfg.messages[n])
            && HasSchema(VString(cfg.messages[n]), SString)
            && |s.data[0]| <= |s.consumer.buffer| == BUFFER_CAPACITY
            && Unpacked(cfg.packer, SString, s.consumer.buffer, s.data[0]) == Some(VString(cfg.messages[n]))
  {
    hide Rising, Paired, ReportsOk, FailuresOk, Unpacked, PackString;
    HeadUnpacks(cfg, s);
    PackStringsAt(cfg, cfg.messages, |s.consumer.received|);
    assert MessageFits(cfg.dataCapacity, cfg.messages[|s.consumer.received|]);
  }

  lemma HeadReport(cfg: Config, ticks: seq<int>, reported: nat, queue: seq<Message>, c: Collector, now: int)
    requires ReportsOk(cfg, ticks, reported, queue, c) && queue != []
    requires Rising(ticks, now) && now < TICK_LIMIT
    ensures |c.ticks| < |ticks|
    ensures var t := ticks[|c.ticks|];
            && IsInt64(t) && queue[0] == PackTick(cfg, t) && |queue[0]| <= |c.buffer| == BUFFER_CAPACITY
            && Collected(cfg.packer, c, queue[0]) == Some(Collector(c.ticks + [t], Overlay(c.buffer, queue[0])))
  {
    var t := ticks[|c.ticks|];
    GetHolds(queue, PackTicks(cfg, ticks), |c.ticks|, reported);
    PackTicksAt(cfg, ticks, |c.ticks|);
    TickSize(cfg, 0, t);
    UnpackedIs(cfg.packer, SPrimitive(Tick), VPrimitive(PTick(t)), c.buffer);
  }

  /** A head report is the packed tick of the same rank, whichever side reports it. */
  lemma ProducerReportArrives(cfg: Config, s: State) returns (t: int)
    requires Reached(cfg, s) && Enabled(cfg, s, CollectFromProducer)
    ensures var c, payload := s.fromProducer, s.producerReports[0];
            && IsInt64(t) && payload == PackTick(cfg, t) && |payload| <= |c.buffer| == BUFFER_CAPACITY
            && Apply(cfg, s, CollectFromProducer) ==
               s.(fromProducer := Collector(c.ticks + [t], Overlay(c.buffer, payload)),
                  producerReports := s.producerReports[1..])
  {
    hide Reached, Collected, Overlay, PackTick, ReportsOk, Rising, Paired, FailuresOk, ProducerOk, ConsumerOk;
    ReachedCore(cfg, s);
    HeadReport(cfg, s.producer.ticks, s.producer.reported, s.producerReports, s.fromProducer, s.now);
    t := s.producer.ticks[|s.fromProducer.ticks|];
  }

  lemma ConsumerReportArrives(cfg: Config, s: State) returns (t: int)
    requires Reached(cfg, s) && Enabled(cfg, s, CollectFromConsumer)
    ensures var c, payload := s.fromConsumer, s.consumerReports[0];
            && IsInt64(t) && payload == PackTick(cfg, t) && |payload| <= |c.buffer| == BUFFER_CAPACITY
            && Apply(cfg, s, CollectFromConsumer) ==
               s.(fromConsumer := Collector(c.ticks + [t], Overlay(c.buffer, payload)),
                  consumerReports := s.consumerReports[1..])
  {
    hide Reached, Collected, Overlay, PackTick, ReportsOk, Rising, Paired, FailuresOk, ProducerOk, ConsumerOk;
    ReachedCore(cfg, s);
    HeadReport(cfg, s.consumer.ticks, s.consumer.reported, s.consumerReports, s.fromConsumer, s.now);
    t := s.consumer.ticks[|s.fromConsumer.ticks|];
  }

  // ----- the world of one actor -----

  /** The clock and the three channels, with all threads behind them. */
  class World {
    const cfg: Config
    var state: State

    /** The state is one of a run. */
    ghost predicate Valid()
      reads this
    {
      Reached(cfg, state) && RingCapacities(cfg)
    }

    /** The start of any measurement: nothing sent, three buffers with any bytes. */
    constructor (cfg: Config, now: int, consumerBuffer: seq<Byte>, fromProducerBuffer: seq<Byte>, fromConsumerBuffer: seq<Byte>)
      requires 0 <= now < 0x8000_0000_0000_0000
      requires |consumerBuffer| == |fromProducerBuffer| == |fromConsumerBuffer| == 10000
      requires cfg.dataCapacity % 4 == 0 && cfg.producerReportCapacity % 4 == 0 && cfg.consumerReportCapacity % 4 == 0
      ensures Valid() && this.cfg == cfg && state.now == now && state.failed == {}
      ensures state.data == [] && state.producerReports == [] && state.consumerReports == []
      ensures state.producer == Protocol.Producer([], 0, 0)
      ensures state.consumer == Protocol.Consumer([], [], 0, consumerBuffer)
      ensures state.fromProducer == Collector([], fromProducerBuffer)
      ensures state.fromConsumer == Collector([], fromConsumerBuffer)
    {
      var s := State(now, Protocol.Producer([], 0, 0), Protocol.Consumer([], [], 0, consumerBuffer),
                     Collector([], fromProducerBuffer), Collector([], fromConsumerBuffer), [], [], [], {});
      this.cfg := cfg;
      this.state := s;
      ReachedInit(cfg, s);
    }

    /** The other threads take any steps after which one of `mine` may act, or nobody. */
    method Wait(mine: set<Thread>) returns (go: bool)
      requires Valid()
      modifies `state
      ensures Valid() && SameParts(mine, old(state), state)
      ensures go ==> SomeCanAct(cfg, state, mine)
      ensures !go ==> Stuck(cfg, state)
    {
      hide Reached, SomeCanAct, Resting, Stuck, SameParts, ByOthers, Core;
      ReachedCore(cfg, state);
      ghost var some := OthersSettle(cfg, state, mine);
      StuckRests(cfg, Final(cfg, state, some));
      var steps: seq<Step> :|
        && IsRun(cfg, state, steps) && ByOthers(steps, mine)
        && (SomeCanAct(cfg, Final(cfg, state, steps), mine) || Resting(cfg, Final(cfg, state, steps)));
      OthersKeep(cfg, state, steps, mine);
      ReachedRun(cfg, state, steps);
      state := Final(cfg, state, steps);
      go := SomeCanAct(cfg, state, mine);
      StuckRests(cfg, state);
    }

    method WaitFor(t: Thread) returns (go: bool)
      requires Valid()
      modifies `state
      ensures Valid() && SamePart(t, old(state), state)
      ensures go ==> CanAct(cfg, state, t)
      ensures !go ==> Stuck(cfg, state)
    {
      hide Reached, CanAct, Stuck, SamePart;
      go := Wait({t});
      assert SamePart(t, old(state), state);
    }

    /** The machine takes a step. */
    method Act(step: Step)
      requires Valid() && Enabled(cfg, state, step)
      modifies `state
      ensures Valid() && state == Apply(cfg, old(state), step)
    {
      hide Reached, Enabled, Apply;
      ReachedStep(cfg, state, step, Apply(cfg, state, step));
      state := Apply(cfg, state, step);
    }

    /** The reading of the clock that the Producer's or the Consumer's measurer stores. */
    method ProducerTicks() returns (t: int)
      requires Valid() && WantsTick(cfg, state.producer) && ProducerThread !in state.failed
      modifies `state
      ensures Valid() && ProducerThread !in state.failed
      ensures state.producer == old(state).producer.(ticks := old(state).producer.ticks + [t])
    {
      hide Reached, CanAct, Stuck;
      var go := WaitFor(ProducerThread);
      ClockRuns(cfg, state);
      t :| state.now <= t < TICK_LIMIT;
      Act(ProducerTick(t));
    }

    method ConsumerTicks() returns (t: int)
      requires Valid() && |state.consumer.ticks| < |state.consumer.received| && ConsumerThread !in state.failed
      modifies `state
      ensures Valid() && ConsumerThread !in state.failed
      ensures state.consumer == old(state).consumer.(ticks := old(state).consumer.ticks + [t])
    {
      hide Reached, CanAct, Stuck;
      var go := WaitFor(ConsumerThread);
      ClockRuns(cfg, state);
      t :| state.now <= t < TICK_LIMIT;
      Act(ConsumerTick(t));
    }

    /** Packing or pushing the next message throws. */
    method DataThrows()
      requires Valid() && WantsSend(cfg, state.producer) && ProducerThread !in state.failed
      requires !Accepts(cfg.dataCapacity, PackString(cfg, cfg.messages[state.producer.sent]))
      modifies `state
      ensures Valid() && state == Failed(old(state), ProducerThread)
    {
      hide Reached, Accepts, PackString;
      Act(ProducerSend);
    }

    /** The used bytes of a buffer into the data channel, unless that throws; `before` is
        the state in which the channel admitted them. */
    method SendData(buffer: Buffer) returns (ok: bool, ghost before: State)
      requires Valid() && buffer.Valid() && WantsSend(cfg, state.producer) && ProducerThread !in state.failed
      requires buffer.data[..buffer.writePtr] == PackString(cfg, cfg.messages[state.producer.sent])
      modifies `state
      ensures Valid() && before.producer == old(state).producer && ProducerThread !in before.failed
      ensures ok <==> Accepts(cfg.dataCapacity, buffer.data[..buffer.writePtr])
      ensures ok ==> state == before.(data := before.data + [buffer.data[..buffer.writePtr]],
                                      producer := before.producer.(sent := before.producer.sent + 1))
      ensures ok ==> Admits(cfg.dataCapacity, before.data, buffer.data[..buffer.writePtr])
      ensures !ok ==> state == Failed(before, ProducerThread)
    {
      hide Reached, Accepts, PackString, Stuck, Admits, Done;
      ok := Accepts(cfg.dataCapacity, buffer.data[..buffer.writePtr]);
      if !ok {
        before := state;
        DataThrows();
        return;
      }
      var go := WaitFor(ProducerThread);
      if !go {
        SomethingUnsent(cfg, state);
        ProducerNeverHangs(cfg, state);
      }
      before := state;
      ReachedStep(cfg, state, ProducerSend, Apply(cfg, state, ProducerSend));
      state := state.(data := state.data + [buffer.data[..buffer.writePtr]],
                      producer := state.producer.(sent := state.producer.sent + 1));
    }

    method SendProducerReport(buffer: Buffer) returns (ok: bool, ghost before: State)
      requires Valid() && buffer.Valid() && WantsReport(cfg, state.producer) && ProducerThread !in state.failed
      requires buffer.data[..buffer.writePtr] == PackTick(cfg, state.producer.ticks[state.producer.reported])
      modifies `state
      ensures Valid() && before.producer == old(state).producer && ProducerThread !in before.failed
      ensures ok <==> Accepts(cfg.producerReportCapacity, buffer.data[..buffer.writePtr])
      ensures ok ==> state == before.(producerReports := before.producerReports + [buffer.data[..buffer.writePtr]],
                                      producer := before.producer.(reported := before.producer.reported + 1))
      ensures ok ==> Admits(cfg.producerReportCapacity, before.producerReports, buffer.data[..buffer.writePtr])
      ensures !ok ==> state == Failed(before, ProducerThread)
    {
      hide Reached, Accepts, PackTick, Stuck, Admits, Done;
      ok := Accepts(cfg.producerReportCapacity, buffer.data[..buffer.writePtr]);
      if !ok {
        before := state;
        Act(ProducerReport);
        return;
      }
      var go := WaitFor(ProducerThread);
      if !go {
        SomethingUnsent(cfg, state);
        ProducerNeverHangs(cfg, state);
      }
      before := state;
      ReachedStep(cfg, state, ProducerReport, Apply(cfg, state, ProducerReport));
      state := state.(producerReports := state.producerReports + [buffer.data[..buffer.writePtr]],
                      producer := state.producer.(reported := state.producer.reported + 1));
    }

    method SendConsumerReport(buffer: Buffer) returns (ok: bool, ghost before: State)
      requires Valid() && buffer.Valid() && WantsConsumerReport(cfg, state.consumer) && ConsumerThread !in state.failed
      requires state.consumer.received == cfg.messages
      requires buffer.data[..buffer.writePtr] == PackTick(cfg, state.consumer.ticks[state.consumer.reported])
      modifies `state
      ensures Valid() && before.consumer == old(state).consumer && ConsumerThread !in before.failed
      ensures ok <==> Accepts(cfg.consumerReportCapacity, buffer.data[..buffer.writePtr])
      ensures ok ==> state == before.(consumerReports := before.consumerReports + [buffer.data[..buffer.writePtr]],
                                      consumer := before.consumer.(reported := before.consumer.reported + 1))
      ensures ok ==> Admits(cfg.consumerReportCapacity, before.consumerReports, buffer.data[..buffer.writePtr])
      ensures !ok ==> state == Failed(before, ConsumerThread)
    {
      hide Reached, Accepts, PackTick, Stuck, Admits, MessagesFit, Sendable;
      ok := Accepts(cfg.consumerReportCapacity, buffer.data[..buffer.writePtr]);
      if !ok {
        before := state;
        Act(ConsumerReport);
        return;
      }
      AllReceived(cfg, state);
      var go := WaitFor(ConsumerThread);
      if !go {
        ConsumerHangs(cfg, state);
      }
      before := state;
      ReachedStep(cfg, state, ConsumerReport, Apply(cfg, state, ConsumerReport));
      state := state.(consumerReports := state.consumerReports + [buffer.data[..buffer.writePtr]],
                      consumer := state.consumer.(reported := state.consumer.reported + 1));
    }

    /** Receiving puts a payload at the front of the buffer and moves no cursor. */
    static method Fill(buffer: Buffer, payload: Message)
      requires buffer.Valid() && |payload| <= BUFFER_CAPACITY
      modifies buffer.data
      ensures buffer.data[..] == Overlay(old(buffer.data[..]), payload)
      ensures LiesAt(payload, buffer.data[..], 0)
    {
      forall k | 0 <= k < |payload| {
        buffer.data[k] := payload[k];
      }
      assert buffer.data[..] == Overlay(old(buffer.data[..]), payload);
      assert buffer.data[..][0..|payload|] == payload;
    }

    /** The next message, unless none will ever come. */
    method ReceiveData(buffer: Buffer) returns (ok: bool, ghost m: Message)
      requires Valid() && buffer.Valid() && ConsumerThread !in state.failed
      requires state.consumer.buffer == buffer.data[..]
      requires |state.consumer.ticks| == |state.consumer.received| < |cfg.messages|
      modifies `state, buffer.data
      ensures Valid() && ConsumerThread !in state.failed
      ensures ok ==> m == cfg.messages[|old(state).consumer.received|]
      ensures ok ==> HasSchema(VString(m), SString) && LiesAt(PackString(cfg, m), buffer.data[..], 0)
      ensures ok ==> state.consumer ==
                     old(state).consumer.(received := old(state).consumer.received + [m], buffer := buffer.data[..])
      ensures !ok ==> Stuck(cfg, state) && state.consumer == old(state).consumer
    {
      hide Reached, Stuck, PackString, Overlay, LiesAt, HasSchema;
      m := [];
      ok := WaitFor(ConsumerThread);
      if ok {
        DataArrives(cfg, state);
        m := cfg.messages[|state.consumer.received|];
        Fill(buffer, state.data[0]);
        Act(ConsumerReceive);
      }
    }

    method ReceiveProducerReport(buffer: Buffer) returns (ghost t: int)
      requires Valid() && buffer.Valid() && state.fromProducer.buffer == buffer.data[..]
      requires CanAct(cfg, state, ProducerCollector)
      modifies `state, buffer.data
      ensures Valid() && IsInt64(t) && LiesAt(PackTick(cfg, t), buffer.data[..], 0)
      ensures state.fromProducer == Collector(old(state).fromProducer.ticks + [t], buffer.data[..])
      ensures state.fromConsumer == old(state).fromConsumer
    {
      hide Reached, PackTick, Overlay, LiesAt, Collected;
      t := ProducerReportArrives(cfg, state);
      Fill(buffer, state.producerReports[0]);
      Act(CollectFromProducer);
    }

    method ReceiveConsumerReport(buffer: Buffer) returns (ghost t: int)
      requires Valid() && buffer.Valid() && state.fromConsumer.buffer == buffer.data[..]
      requires CanAct(cfg, state, ConsumerCollector)
      modifies `state, buffer.data
      ensures Valid() && IsInt64(t) && LiesAt(PackTick(cfg, t), buffer.data[..], 0)
      ensures state.fromConsumer == Collector(old(state).fromConsumer.ticks + [t], buffer.data[..])
      ensures state.fromProducer == old(state).fromProducer
    {
      hide Reached, PackTick, Overlay, LiesAt, Collected;
      t := ConsumerReportArrives(cfg, state);
      Fill(buffer, state.consumerReports[0]);
      Act(CollectFromConsumer);
    }
  }

  // ----- the actors -----

  /** Resets the buffer and packs a value; throws exactly if it does not fit the buffer. */
  method PackAlone(buffer: Buffer, pk: Packer, v: Value) returns (ok: bool)
    requires buffer.Valid()
    modifies buffer`readPtr, buffer`writePtr, buffer.data
    ensures buffer.Valid()
    ensures ok <==> |Encode(pk, v)| <= BUFFER_CAPACITY
    ensures ok ==> buffer.data[..buffer.writePtr] == Encode(pk, v)
  {
    hide Encode;
    buffer.Reset();
    ok := Pack(pk, buffer, v);
  }

  class Producer {
    const buffer: Buffer
    const generator: SimpleRoundGenerator
    const measurer: Measurer

    ghost predicate Valid()
      reads this, buffer, generator, measurer
    {
      buffer.Valid() && generator.Valid() && measurer.Valid()
    }

    /** The generated texts are the messages of the configuration. */
    ghost predicate Generates(cfg: Config)
      reads this, generator
    {
      && |generator.msgs| == |cfg.messages|
      && forall i :: 0 <= i < |generator.msgs| ==> cfg.messages[i] == TextBytes(generator.msgs[i])
    }

    /** The machine's Producer has sent `sent` messages and ticked as this object has. */
    ghost predicate Tied(world: World, sent: nat, reported: nat)
      reads this, world, measurer
    {
      && world.Valid() && ProducerThread !in world.state.failed
      && world.state.producer == Protocol.Producer(measurer.measurements, sent, reported)
    }

    constructor (generator: SimpleRoundGenerator, measurer: Measurer)
      requires generator.Valid() && measurer.Valid()
      ensures Valid() && this.generator == generator && this.measurer == measurer && fresh(buffer) && fresh(buffer.data)
    {
      this.generator := generator;
      this.measurer := measurer;
      buffer := new Buffer();
    }

    /** Ticks, packs and sends message by message, then packs and sends its ticks. */
    method Run(world: World) returns (outcome: Outcome, ghost sent: seq<Message>, ghost reported: seq<Message>)
      requires Valid() && Generates(world.cfg) && measurer.measurements == [] && Tied(world, 0, 0)
      modifies world`state, buffer, buffer.data, generator`cursor, measurer
      ensures world.Valid() && Valid()
      ensures outcome == Returns <==> Completes(world.cfg, ProducerThread)
      ensures outcome == Throws <==> !Completes(world.cfg, ProducerThread)
      ensures sent == PackStrings(world.cfg, world.cfg.messages)[..Sendable(world.cfg, world.cfg.messages)]
      ensures |sent| <= |generator.msgs|
      ensures forall i :: 0 <= i < |sent| ==> sent[i] == Encode(world.cfg.packer, VString(TextBytes(generator.msgs[i])))
      ensures outcome == Returns ==>
                && |sent| == |reported| == |measurer.measurements| == |generator.msgs|
                && forall i :: 0 <= i < |reported| ==>
                     reported[i] == Encode(world.cfg.packer, VPrimitive(PTick(measurer.measurements[i])))
      ensures outcome == Returns ==>
                && Done(world.cfg, world.state, ProducerThread)
                && world.state.producer.ticks == measurer.measurements
                && reported == PackTicks(world.cfg, measurer.measurements)
      ensures outcome == Throws ==> ProducerThread in world.state.failed && reported == []
    {
      hide Reached, MessageFits, ReportFits, PackStrings, PackTicks, Sendable, TextBytes, Encode;
      PackedStrings(world.cfg, world.cfg.messages);
      reported := [];
      var ok;
      ok, sent := SendMessages(world);
      SendableIs(world.cfg, world.cfg.messages, |sent|);
      if !ok {
        return Throws, sent, reported;
      }
      ok, reported := SendTicks(world);
      PackedTicks(world.cfg, measurer.measurements);
      outcome := if ok then Returns else Throws;
    }

    /** Ticks, packs the next message and sends it. */
    method SendNext(world: World) returns (ok: bool, ghost payload: Message)
      requires Valid() && Generates(world.cfg) && generator.cursor < |generator.msgs|
      requires Tied(world, generator.cursor, 0) && |measurer.measurements| == generator.cursor
      modifies world`state, buffer, buffer.data, generator`cursor, measurer
      ensures world.Valid() && Valid()
      ensures ok <==> MessageFits(world.cfg.dataCapacity, world.cfg.messages[old(generator.cursor)])
      ensures ok ==> generator.cursor == |measurer.measurements| == old(generator.cursor) + 1
      ensures ok ==> Tied(world, generator.cursor, 0)
      ensures ok ==> payload == PackStrings(world.cfg, world.cfg.messages)[old(generator.cursor)]
      ensures !ok ==> ProducerThread in world.state.failed
    {
      hide Reached, PackStrings, MessageFits, TextBytes, Encode;
      ghost var m := world.cfg.messages[generator.cursor];
      StringSize(world.cfg, world.cfg.dataCapacity, m);
      PackStringsAt(world.cfg, world.cfg.messages, generator.cursor);
      payload := PackString(world.cfg, m);
      var now := world.ProducerTicks();
      measurer.Tick(now);
      var msg := generator.Next();
      ok := PackAlone(buffer, world.cfg.packer, VString(TextBytes(msg)));
      if ok {
        ghost var before;
        ok, before := world.SendData(buffer);
      } else {
        world.DataThrows();
      }
    }

    method SendMessages(world: World) returns (ok: bool, ghost sent: seq<Message>)
      requires Valid() && Generates(world.cfg) && measurer.measurements == [] && Tied(world, 0, 0)
      modifies world`state, buffer, buffer.data, generator`cursor, measurer
      ensures world.Valid() && Valid() && |sent| <= |world.cfg.messages|
      ensures sent == PackStrings(world.cfg, world.cfg.messages)[..|sent|]
      ensures forall i :: 0 <= i < |sent| ==> MessageFits(world.cfg.dataCapacity, world.cfg.messages[i])
      ensures ok ==> |sent| == |measurer.measurements| == |world.cfg.messages| && Tied(world, |sent|, 0)
      ensures !ok ==> |sent| < |world.cfg.messages| && !MessageFits(world.cfg.dataCapacity, world.cfg.messages[|sent|])
      ensures !ok ==> ProducerThread in world.state.failed
    {
      hide Reached, MessageFits, PackStrings, TextBytes;
      ghost var all := PackStrings(world.cfg, world.cfg.messages);
      sent := [];
      generator.ToFirst();
      var hasNext := generator.HasNext();
      while hasNext
        invariant Valid() && Generates(world.cfg) && Tied(world, generator.cursor, 0)
        invariant hasNext <==> generator.cursor < |generator.msgs|
        invariant |measurer.measurements| == generator.cursor == |sent|
        invariant sent == all[..generator.cursor]
        invariant forall i :: 0 <= i < |sent| ==> MessageFits(world.cfg.dataCapacity, world.cfg.messages[i])
        decreases |generator.msgs| - generator.cursor
      {
        Sequences.TakeOneMore(all, generator.cursor);
        ghost var payload;
        ok, payload := SendNext(world);
        if !ok {
          return;
        }
        sent := sent + [payload];
        hasNext := generator.HasNext();
      }
      ok := true;
    }

    /** Packs the next tick and sends it. */
    method ReportNext(world: World) returns (ok: bool, ghost payload: Message)
      requires Valid() && measurer.cursor < |measurer.measurements| == |world.cfg.messages|
      requires Tied(world, |world.cfg.messages|, measurer.cursor)
      modifies world`state, buffer, buffer.data, measurer`cursor
      ensures world.Valid() && Valid() && measurer.cursor == old(measurer.cursor) + 1
      ensures ok <==> ReportFits(world.cfg.producerReportCapacity)
      ensures ok ==> Tied(world, |world.cfg.messages|, measurer.cursor)
      ensures payload == PackTicks(world.cfg, measurer.measurements)[old(measurer.cursor)]
      ensures !ok ==> ProducerThread in world.state.failed
    {
      hide Reached, PackTicks, ReportFits, Encode;
      var tick := measurer.Next();
      TickFits(world.cfg, world.cfg.producerReportCapacity, tick);
      PackTicksAt(world.cfg, measurer.measurements, measurer.cursor - 1);
      payload := PackTick(world.cfg, tick);
      ok := PackAlone(buffer, world.cfg.packer, VPrimitive(PTick(tick)));
      ghost var before;
      ok, before := world.SendProducerReport(buffer);
    }

    method SendTicks(world: World) returns (ok: bool, ghost reported: seq<Message>)
      requires Valid() && |measurer.measurements| == |world.cfg.messages|
      requires Tied(world, |world.cfg.messages|, 0)
      modifies world`state, buffer, buffer.data, measurer`cursor
      ensures world.Valid() && Valid()
      ensures ok <==> world.cfg.messages == [] || ReportFits(world.cfg.producerReportCapacity)
      ensures ok ==> Tied(world, |world.cfg.messages|, |world.cfg.messages|)
      ensures ok ==> reported == PackTicks(world.cfg, measurer.measurements)
      ensures !ok ==> ProducerThread in world.state.failed && reported == []
    {
      hide Reached, PackTicks, ReportFits;
      ghost var all := PackTicks(world.cfg, measurer.measurements);
      reported := [];
      measurer.ToFirst();
      var hasNext := measurer.HasNext();
      while hasNext
        invariant Valid() && Tied(world, |world.cfg.messages|, measurer.cursor)
        invariant hasNext <==> measurer.cursor < |measurer.measurements|
        invariant |reported| == measurer.cursor && reported == all[..measurer.cursor]
        invariant 0 < measurer.cursor ==> ReportFits(world.cfg.producerReportCapacity)
        decreases |measurer.measurements| - measurer.cursor
      {
        Sequences.TakeOneMore(all, measurer.cursor);
        ghost var payload;
        ok, payload := ReportNext(world);
        if !ok {
          return;
        }
        reported := reported + [payload];
        hasNext := measurer.HasNext();
      }
      ok := true;
    }
  }

  class Consumer {
    const buffer: Buffer
    const measurer: Measurer

    ghost predicate Valid()
      reads this, buffer, measurer
    {
      buffer.Valid() && measurer.Valid()
    }

    /** The machine's Consumer has received `received` and ticked as this object has. */
    ghost predicate Tied(world: World, received: seq<Message>, reported: nat)
      reads this, world, measurer
    {
      && world.Valid() && ConsumerThread !in world.state.failed
      && world.state.consumer.received == received && world.state.consumer.reported == reported
      && world.state.consumer.ticks == measurer.measurements
    }

    constructor (measurer: Measurer)
      requires measurer.Valid()
      ensures Valid() && this.measurer == measurer && fresh(buffer) && fresh(buffer.data)
    {
      this.measurer := measurer;
      buffer := new Buffer();
    }

    /** Receives, unpacks and ticks until its measurer is full, then packs and sends its
        ticks. It hangs exactly if some message does not fit and so is never sent. */
    method Run(world: World) returns (outcome: Outcome, ghost received: seq<Message>, ghost reported: seq<Message>)
      requires Valid() && Tied(world, [], 0) && world.state.consumer.buffer == buffer.data[..]
      requires measurer.measurements == [] && measurer.capacity == |world.cfg.messages|
      modifies world`state, buffer, buffer.data, measurer
      ensures world.Valid() && Valid()
      ensures outcome == Returns <==> Completes(world.cfg, ConsumerThread)
      ensures outcome == Throws <==> MessagesFit(world.cfg) && !Completes(world.cfg, ConsumerThread)
      ensures outcome == Hangs <==> !MessagesFit(world.cfg)
      ensures received == world.cfg.messages[..Sendable(world.cfg, world.cfg.messages)]
      ensures outcome == Returns ==>
                && |reported| == |measurer.measurements| == |world.cfg.messages|
                && forall i :: 0 <= i < |reported| ==>
                     reported[i] == Encode(world.cfg.packer, VPrimitive(PTick(measurer.measurements[i])))
      ensures outcome == Returns ==>
                && Done(world.cfg, world.state, ConsumerThread)
                && world.state.consumer.ticks == measurer.measurements
                && reported == PackTicks(world.cfg, measurer.measurements)
      ensures outcome == Throws ==> ConsumerThread in world.state.failed && reported == []
      ensures outcome == Hangs ==> Stuck(world.cfg, world.state) && reported == []
    {
      hide Reached, MessagesFit, ReportFits, PackTicks, Sendable, Stuck, Encode;
      reported := [];
      var ok;
      ok, received := ReceiveMessages(world);
      if !ok {
        return Hangs, received, reported;
      }
      AllReceived(world.cfg, world.state);
      ok, reported := SendTicks(world);
      PackedTicks(world.cfg, measurer.measurements);
      outcome := if ok then Returns else Throws;
    }

    /** Receives and unpacks the next message, then ticks. */
    method ReceiveNext(world: World, ghost received: seq<Message>) returns (ok: bool, ghost m: Message)
      requires Valid() && Tied(world, received, 0) && world.state.consumer.buffer == buffer.data[..]
      requires |received| == |measurer.measurements| < measurer.capacity == |world.cfg.messages|
      modifies world`state, buffer, buffer.data, measurer
      ensures Valid() && measurer.capacity == old(measurer.capacity)
      ensures ok ==> m == world.cfg.messages[|received|] && |measurer.measurements| == |received| + 1
      ensures ok ==> Tied(world, received + [m], 0) && world.state.consumer.buffer == buffer.data[..]
      ensures !ok ==> Tied(world, received, 0) && measurer.measurements == old(measurer.measurements)
      ensures !ok ==> Stuck(world.cfg, world.state)
    {
      hide Reached, Stuck, HasSchema, LiesAt, Encode;
      m := [];
      buffer.Reset();
      ghost var expected;
      ok, expected := world.ReceiveData(buffer);
      if !ok {
        return;
      }
      var msg := Unpack(world.cfg.packer, buffer, SString);
      assert msg == Some(VString(expected));
      m := msg.value.chars;
      var now := world.ConsumerTicks();
      measurer.Tick(now);
    }

    method ReceiveMessages(world: World) returns (ok: bool, ghost received: seq<Message>)
      requires Valid() && Tied(world, [], 0) && world.state.consumer.buffer == buffer.data[..]
      requires measurer.measurements == [] && measurer.capacity == |world.cfg.messages|
      modifies world`state, buffer, buffer.data, measurer
      ensures Valid() && Tied(world, received, 0)
      ensures ok ==> received == world.cfg.messages && |measurer.measurements| == |world.cfg.messages|
      ensures !ok ==> !MessagesFit(world.cfg) && Stuck(world.cfg, world.state)
      ensures !ok ==> received == world.cfg.messages[..Sendable(world.cfg, world.cfg.messages)]
    {
      hide Reached, Stuck, MessagesFit, Sendable;
      received := [];
      var full := measurer.IsFull();
      while !full
        invariant Valid() && Tied(world, received, 0) && world.state.consumer.buffer == buffer.data[..]
        invariant measurer.capacity == |world.cfg.messages|
        invariant full <==> |measurer.measurements| == measurer.capacity
        invariant |received| == |measurer.measurements| && received == world.cfg.messages[..|received|]
        decreases measurer.capacity - |measurer.measurements|
      {
        Sequences.TakeOneMore(world.cfg.messages, |received|);
        ghost var m;
        ok, m := ReceiveNext(world, received);
        if !ok {
          ConsumerHangs(world.cfg, world.state);
          return;
        }
        received := received + [m];
        full := measurer.IsFull();
      }
      ok := true;
    }

    /** Packs the next tick and sends it. */
    method ReportNext(world: World) returns (ok: bool, ghost payload: Message)
      requires Valid() && measurer.cursor < |measurer.measurements| == |world.cfg.messages|
      requires Tied(world, world.cfg.messages, measurer.cursor)
      modifies world`state, buffer, buffer.data, measurer`cursor
      ensures world.Valid() && Valid() && measurer.cursor == old(measurer.cursor) + 1
      ensures ok <==> ReportFits(world.cfg.consumerReportCapacity)
      ensures ok ==> Tied(world, world.cfg.messages, measurer.cursor)
      ensures payload == PackTicks(world.cfg, measurer.measurements)[old(measurer.cursor)]
      ensures !ok ==> ConsumerThread in world.state.failed
    {
      hide Reached, PackTicks, ReportFits, Encode;
      var tick := measurer.Next();
      TickFits(world.cfg, world.cfg.consumerReportCapacity, tick);
      PackTicksAt(world.cfg, measurer.measurements, measurer.cursor - 1);
      payload := PackTick(world.cfg, tick);
      ok := PackAlone(buffer, world.cfg.packer, VPrimitive(PTick(tick)));
      ghost var before;
      ok, before := world.SendConsumerReport(buffer);
    }

    method SendTicks(world: World) returns (ok: bool, ghost reported: seq<Message>)
      requires Valid() && |measurer.measurements| == |world.cfg.messages|
      requires Tied(world, world.cfg.messages, 0)
      modifies world`state, buffer, buffer.data, measurer`cursor
      ensures world.Valid() && Valid()
      ensures ok <==> world.cfg.messages == [] || ReportFits(world.cfg.consumerReportCapacity)
      ensures ok ==> Tied(world, world.cfg.messages, |world.cfg.messages|)
      ensures ok ==> reported == PackTicks(world.cfg, measurer.measurements)
      ensures !ok ==> ConsumerThread in world.state.failed && reported == []
    {
      hide Reached, PackTicks, ReportFits;
      ghost var all := PackTicks(world.cfg, measurer.measurements);
      reported := [];
      measurer.ToFirst();
      var hasNext := measurer.HasNext();
      while hasNext
        invariant Valid() && Tied(world, world.cfg.messages, measurer.cursor)
        invariant hasNext <==> measurer.cursor < |measurer.measurements|
        invariant |reported| == measurer.cursor && reported == all[..measurer.cursor]
        invariant 0 < measurer.cursor ==> ReportFits(world.cfg.consumerReportCapacity)
        decreases |measurer.measurements| - measurer.cursor
      {
        Sequences.TakeOneMore(all, measurer.cursor);
        ghost var payload;
        ok, payload := ReportNext(world);
        if !ok {
          return;
        }
        reported := reported + [payload];
        hasNext := measurer.HasNext();
      }
      ok := true;
    }
  }

  /** In a state of a run with both collecting threads full, the run is finished and the
      collected ticks are those of the two actors. */
  lemma CollectedPairing(cfg: Config, s: State)
    requires Reached(cfg, s) && Done(cfg, s, ProducerCollector) && Done(cfg, s, ConsumerCollector)
    ensures Finished(cfg, s)
    ensures s.fromProducer.ticks == s.producer.ticks && s.fromConsumer.ticks == s.consumer.ticks
    ensures OneClock(s.fromProducer.ticks, s.fromConsumer.ticks)
  {
    hide Reached, Core, OneClock;
    ReachedCore(cfg, s);
    CollectedAll(cfg, s);
    FinishedTicks(cfg, s);
  }

  lemma AllShippingBounds(producer: seq<int>, consumer: seq<int>)
    requires OneClock(producer, consumer) && producer != []
    ensures forall i :: 0 <= i < |producer| ==>
              0 <= Shippings(producer, consumer)[i] <= consumer[|consumer| - 1] - producer[0]
  {
    forall i | 0 <= i < |producer|
      ensures 0 <= Shippings(producer, consumer)[i] <= consumer[|consumer| - 1] - producer[0]
    {
      ShippingBounds(producer, consumer, i);
    }
  }

  class Analyzer {
    const consumerMeasurer: Measurer
    const producerMeasurer: Measurer
    const consumerBuffer: Buffer
    const producerBuffer: Buffer

    ghost predicate Valid()
      reads this, consumerMeasurer, producerMeasurer, consumerBuffer, producerBuffer
    {
      && consumerMeasurer.Valid() && producerMeasurer.Valid() && consumerMeasurer != producerMeasurer
      && consumerBuffer.Valid() && producerBuffer.Valid() && consumerBuffer != producerBuffer
      && consumerBuffer.data != producerBuffer.data
    }

    constructor (consumerMeasurer: Measurer, producerMeasurer: Measurer)
      requires consumerMeasurer.Valid() && producerMeasurer.Valid() && consumerMeasurer != producerMeasurer
      ensures Valid() && this.consumerMeasurer == consumerMeasurer && this.producerMeasurer == producerMeasurer
      ensures fresh(consumerBuffer) && fresh(consumerBuffer.data) && fresh(producerBuffer) && fresh(producerBuffer.data)
    {
      this.consumerMeasurer := consumerMeasurer;
      this.producerMeasurer := producerMeasurer;
      consumerBuffer := new Buffer();
      producerBuffer := new Buffer();
    }

    /** The two collecting threads have stored what the machine says they have. */
    ghost predicate Tied(world: World)
      reads this, world, consumerMeasurer, producerMeasurer, consumerBuffer.data, producerBuffer.data
    {
      && world.Valid()
      && world.state.fromProducer == Collector(producerMeasurer.measurements, producerBuffer.data[..])
      && world.state.fromConsumer == Collector(consumerMeasurer.measurements, consumerBuffer.data[..])
      && producerMeasurer.capacity == |world.cfg.messages| == consumerMeasurer.capacity
    }

    /** One round of the thread that collects the Producer's ticks. */
    method ProducerRound(world: World)
      requires Valid() && Tied(world) && CanAct(world.cfg, world.state, ProducerCollector)
      modifies world`state, producerBuffer, producerBuffer.data, producerMeasurer
      ensures Valid() && Tied(world)
      ensures |producerMeasurer.measurements| == |old(producerMeasurer.measurements)| + 1
    {
      hide Reached, LiesAt, Encode;
      producerBuffer.Reset();
      ghost var t := world.ReceiveProducerReport(producerBuffer);
      var tick := Unpack(world.cfg.packer, producerBuffer, SPrimitive(Tick));
      assert HasSchema(VPrimitive(PTick(t)), SPrimitive(Tick));
      assert tick == Some(VPrimitive(PTick(t)));
      producerMeasurer.PushBack(tick.value.primitive.count);
    }

    method ConsumerRound(world: World)
      requires Valid() && Tied(world) && CanAct(world.cfg, world.state, ConsumerCollector)
      modifies world`state, consumerBuffer, consumerBuffer.data, consumerMeasurer
      ensures Valid() && Tied(world)
      ensures |consumerMeasurer.measurements| == |old(consumerMeasurer.measurements)| + 1
    {
      hide Reached, LiesAt, Encode;
      consumerBuffer.Reset();
      ghost var t := world.ReceiveConsumerReport(consumerBuffer);
      var tick := Unpack(world.cfg.packer, consumerBuffer, SPrimitive(Tick));
      assert HasSchema(VPrimitive(PTick(t)), SPrimitive(Tick));
      assert tick == Some(VPrimitive(PTick(t)));
      consumerMeasurer.PushBack(tick.value.primitive.count);
    }

    /** A round of whichever collecting thread may act after a wait, if one ever may. */
    method Round(world: World) returns (ok: bool)
      requires Valid() && Tied(world)
      modifies world`state, producerBuffer, producerBuffer.data, producerMeasurer
      modifies consumerBuffer, consumerBuffer.data, consumerMeasurer
      ensures Valid() && Tied(world)
      ensures ok ==> |producerMeasurer.measurements| + |consumerMeasurer.measurements| ==
                     |old(producerMeasurer.measurements)| + |old(consumerMeasurer.measurements)| + 1
      ensures !ok ==> Stuck(world.cfg, world.state) && world.state.fromProducer == old(world.state).fromProducer
                      && world.state.fromConsumer == old(world.state).fromConsumer
    {
      hide Reached, Stuck, CanAct;
      ghost var before := world.state;
      ok := world.Wait({ProducerCollector, ConsumerCollector});
      assert SamePart(ProducerCollector, before, world.state) && SamePart(ConsumerCollector, before, world.state);
      if ok {
        if
        case CanAct(world.cfg, world.state, ProducerCollector) => ProducerRound(world);
        case CanAct(world.cfg, world.state, ConsumerCollector) => ConsumerRound(world);
      }
    }

    /** The two threads, whose rounds interleave in any order, until both measurers are full
        or one of them waits in vain. */
    method Collect(world: World) returns (ok: bool)
      requires Valid() && Tied(world)
      modifies world`state, producerBuffer, producerBuffer.data, producerMeasurer
      modifies consumerBuffer, consumerBuffer.data, consumerMeasurer
      ensures Valid() && Tied(world)
      ensures ok <==> Completes(world.cfg, ProducerCollector) && Completes(world.cfg, ConsumerCollector)
      ensures ok ==> Done(world.cfg, world.state, ProducerCollector) && Done(world.cfg, world.state, ConsumerCollector)
      ensures !ok ==> Stuck(world.cfg, world.state)
    {
      hide Reached, Stuck, Completes, Core;
      var producerFull := producerMeasurer.IsFull();
      var consumerFull := consumerMeasurer.IsFull();
      while !producerFull || !consumerFull
        invariant Valid() && Tied(world)
        invariant producerFull <==> |producerMeasurer.measurements| == |world.cfg.messages|
        invariant consumerFull <==> |consumerMeasurer.measurements| == |world.cfg.messages|
        decreases 2 * |world.cfg.messages| - |producerMeasurer.measurements| - |consumerMeasurer.measurements|
      {
        ok := Round(world);
        if !ok {
          CollectorHangs(world.cfg, world.state, if producerFull then ConsumerCollector else ProducerCollector);
          return;
        }
        producerFull := producerMeasurer.IsFull();
        consumerFull := consumerMeasurer.IsFull();
      }
      ok := true;
      ReachedCore(world.cfg, world.state);
      DoneCompletes(world.cfg, world.state, ProducerCollector);
      DoneCompletes(world.cfg, world.state, ConsumerCollector);
    }

    /** Collects both tick lists and pairs them. It hangs exactly if something is never
        reported. The total time is `None`, an element read from an empty list, exactly for
        a run of no messages. */
    method Run(world: World) returns (outcome: Outcome, shippings: seq<int>, totalTime: Option<int>)
      requires Valid() && Tied(world)
      modifies world`state, producerBuffer, producerBuffer.data, producerMeasurer
      modifies consumerBuffer, consumerBuffer.data, consumerMeasurer
      ensures Valid() && Tied(world) && outcome != Throws
      ensures outcome == Returns <==>
                Completes(world.cfg, ProducerCollector) && Completes(world.cfg, ConsumerCollector)
      ensures outcome == Hangs ==> Stuck(world.cfg, world.state)
      ensures outcome == Returns ==>
                && Finished(world.cfg, world.state)
                && producerMeasurer.measurements == world.state.producer.ticks
                && consumerMeasurer.measurements == world.state.consumer.ticks
                && shippings == Shippings(world.state.producer.ticks, world.state.consumer.ticks)
                && totalTime == TotalTime(world.state.producer.ticks, world.state.consumer.ticks)
                && |shippings| == |world.state.producer.ticks| == |world.state.consumer.ticks| == |world.cfg.messages|
                && (0 < |shippings| ==>
                      totalTime == Some(world.state.consumer.ticks[|shippings| - 1] - world.state.producer.ticks[0]))
                && (totalTime == None <==> world.cfg.messages == [])
                && forall i :: 0 <= i < |shippings| ==> totalTime.Some? && 0 <= shippings[i] <= totalTime.value
    {
      hide Reached, Completes, Stuck, OneClock;
      var ok := Collect(world);
      if !ok {
        return Hangs, [], None;
      }
      CollectedPairing(world.cfg, world.state);
      if producerMeasurer.measurements != [] {
        AllShippingBounds(producerMeasurer.measurements, consumerMeasurer.measurements);
      }
      outcome := Returns;
      shippings, totalTime := Process(producerMeasurer, consumerMeasurer);
    }
  }
}
