/** The invariant of the measurement protocol: every step keeps it and either does one
    unit of work or makes its thread fail. */
module ProtocolSafety {
  import opened Wrappers
  import opened Bytes
  import opened RingIndex
  import opened Fifo
  import opened ByteBuffer
  import opened PackerSpec
  import opened Quantiles
  import opened Protocol
  import Sequences

  // ----- channels -----

  function PackStrings(cfg: Config, ms: seq<Message>): (r: seq<Message>)
    ensures |r| == |ms|
  {
    if ms == [] then [] else [PackString(cfg, ms[0])] + PackStrings(cfg, ms[1..])
  }

  lemma {:induction false} PackStringsAt(cfg: Config, ms: seq<Message>, i: nat)
    requires i < |ms|
    ensures PackStrings(cfg, ms)[i] == PackString(cfg, ms[i])
  {
    if i > 0 {
      PackStringsAt(cfg, ms[1..], i - 1);
    }
  }

  function PackTicks(cfg: Config, ts: seq<int>): (r: seq<Message>)
    ensures |r| == |ts|
  {
    if ts == [] then [] else [PackTick(cfg, ts[0])] + PackTicks(cfg, ts[1..])
  }

  lemma {:induction false} PackTicksAt(cfg: Config, ts: seq<int>, i: nat)
    requires i < |ts|
    ensures PackTicks(cfg, ts)[i] == PackTick(cfg, ts[i])
  {
    if i > 0 {
      PackTicksAt(cfg, ts[1..], i - 1);
    }
  }

  /** A channel holds the payloads from `from` up to `to` of all that are ever sent. */
  predicate Holds(queue: seq<Message>, all: seq<Message>, from: nat, to: nat) {
    from <= to <= |all| && queue == all[from..to]
  }

  lemma PutHolds(queue: seq<Message>, all: seq<Message>, from: nat, to: nat)
    requires Holds(queue, all, from, to) && to < |all|
    ensures Holds(queue + [all[to]], all, from, to + 1)
  {
  }

  lemma GetHolds(queue: seq<Message>, all: seq<Message>, from: nat, to: nat)
    requires Holds(queue, all, from, to) && queue != []
    ensures from < to && queue[0] == all[from] && Holds(queue[1..], all, from + 1, to)
  {
  }

  /** The overlaid buffer unpacks to the value last received. */
  lemma UnpackedIs(pk: Packer, s: Schema, v: Value, buffer: seq<Byte>)
    requires HasSchema(v, s) && |Encode(pk, v)| <= |buffer|
    ensures Unpacked(pk, s, buffer, Encode(pk, v)) == Some(v)
  {
    var data := Overlay(buffer, Encode(pk, v));
    assert LiesAt(Encode(pk, v), data, 0);
    ParseOfEncode(pk, v, s, data, 0);
  }

  /** The packed message fits the message buffer and the channel's capacity. */
  predicate MessageFits(capacity: nat, m: Message) {
    WORD_BYTES + |m| <= BUFFER_CAPACITY && HEADER + WORD_BYTES + |m| <= capacity
  }

  /** A packed tick fits the channel's capacity. */
  predicate ReportFits(capacity: nat) { HEADER + WORD_BYTES <= capacity }

  lemma StringSize(cfg: Config, capacity: nat, m: Message)
    ensures |PackString(cfg, m)| == WORD_BYTES + |m|
    ensures Accepts(capacity, PackString(cfg, m)) <==> MessageFits(capacity, m)
  {
  }

  lemma TickSize(cfg: Config, capacity: nat, t: int)
    ensures |PackTick(cfg, t)| == WORD_BYTES
    ensures Accepts(capacity, PackTick(cfg, t)) <==> ReportFits(capacity)
  {
  }

  lemma CollectedIs(cfg: Config, c: Collector, t: int)
    requires IsInt64(t) && |c.buffer| == BUFFER_CAPACITY
    ensures Collected(cfg.packer, c, PackTick(cfg, t)).Some?
    ensures var r := Collected(cfg.packer, c, PackTick(cfg, t)).value;
            r.ticks == c.ticks + [t] && |r.buffer| == BUFFER_CAPACITY
  {
    TickSize(cfg, 0, t);
    UnpackedIs(cfg.packer, SPrimitive(Tick), VPrimitive(PTick(t)), c.buffer);
  }

  // ----- what fits -----

  /** Every message to be sent fits. */
  predicate MessagesFit(cfg: Config) {
    forall i :: 0 <= i < |cfg.messages| ==> MessageFits(cfg.dataCapacity, cfg.messages[i])
  }

  /** Everything fits that the thread needs to have sent, by itself or by others. */
  predicate Completes(cfg: Config, t: Thread) {
    && MessagesFit(cfg)
    && (cfg.messages != [] ==>
          ReportFits(if t == ProducerThread || t == ProducerCollector then cfg.producerReportCapacity
                     else cfg.consumerReportCapacity))
  }

  /** How many messages come before the first one that does not fit. */
  function Sendable(cfg: Config, messages: seq<Message>): (n: nat)
    ensures n <= |messages|
    ensures forall i :: 0 <= i < n ==> MessageFits(cfg.dataCapacity, messages[i])
    ensures n < |messages| ==> !MessageFits(cfg.dataCapacity, messages[n])
  {
    if messages == [] || !MessageFits(cfg.dataCapacity, messages[0]) then 0
    else 1 + Sendable(cfg, messages[1..])
  }

  // ----- the invariant -----

  predicate Rising(ts: seq<int>, now: int) {
    && Sorted(ts)
    && forall i :: 0 <= i < |ts| ==> 0 <= ts[i] <= now
  }

  lemma RisingExtend(ts: seq<int>, now: int, t: int)
    requires Rising(ts, now) && 0 <= now <= t
    ensures Rising(ts, t) && Rising(ts + [t], t)
  {
  }

  predicate ProducerOk(cfg: Config, p: Producer) {
    && p.sent <= |p.ticks| <= p.sent + 1 && |p.ticks| <= |cfg.messages|
    && p.reported <= |p.ticks|
    && (0 < p.reported ==> p.sent == |cfg.messages|)
    && (forall i :: 0 <= i < p.sent ==> MessageFits(cfg.dataCapacity, cfg.messages[i]))
    && (0 < p.reported ==> ReportFits(cfg.producerReportCapacity))
  }

  predicate ConsumerOk(cfg: Config, c: Consumer, sent: nat) {
    && |c.received| <= sent <= |cfg.messages|
    && c.received == cfg.messages[..|c.received|]
    && |c.ticks| <= |c.received| <= |c.ticks| + 1
    && c.reported <= |c.ticks|
    && (0 < c.reported ==> |c.ticks| == |cfg.messages|)
    && (0 < c.reported ==> ReportFits(cfg.consumerReportCapacity))
    && |c.buffer| == BUFFER_CAPACITY
  }

  /** A report channel and the thread collecting from it. */
  predicate ReportsOk(cfg: Config, ticks: seq<int>, reported: nat, queue: seq<Message>, c: Collector) {
    && |c.ticks| <= reported <= |ticks|
    && c.ticks == ticks[..|c.ticks|]
    && Holds(queue, PackTicks(cfg, ticks), |c.ticks|, reported)
    && |c.buffer| == BUFFER_CAPACITY
  }

  predicate Paired(producer: seq<int>, consumer: seq<int>) {
    |consumer| <= |producer| && forall i :: 0 <= i < |consumer| ==> producer[i] <= consumer[i]
  }

  /** The Producer waits to send something that does not fit. */
  predicate ProducerBroken(cfg: Config, p: Producer) {
    || (WantsSend(cfg, p) && !MessageFits(cfg.dataCapacity, cfg.messages[p.sent]))
    || (WantsReport(cfg, p) && !ReportFits(cfg.producerReportCapacity))
  }

  predicate ConsumerBroken(cfg: Config, c: Consumer) {
    WantsConsumerReport(cfg, c) && !ReportFits(cfg.consumerReportCapacity)
  }

  /** Threads fail only over what does not fit; the collecting threads never fail. */
  predicate FailuresOk(cfg: Config, p: Producer, c: Consumer, failed: set<Thread>) {
    && (ProducerThread in failed ==> ProducerBroken(cfg, p))
    && (ConsumerThread in failed ==> ConsumerBroken(cfg, c))
    && ProducerCollector !in failed && ConsumerCollector !in failed
  }

  predicate Core(cfg: Config, s: State) {
    && 0 <= s.now < TICK_LIMIT
    && FailuresOk(cfg, s.producer, s.consumer, s.failed)
    && ProducerOk(cfg, s.producer)
    && ConsumerOk(cfg, s.consumer, s.producer.sent)
    && Rising(s.producer.ticks, s.now) && Rising(s.consumer.ticks, s.now)
    && Paired(s.producer.ticks, s.consumer.ticks)
    && Holds(s.data, PackStrings(cfg, cfg.messages), |s.consumer.received|, s.producer.sent)
    && ReportsOk(cfg, s.producer.ticks, s.producer.reported, s.producerReports, s.fromProducer)
    && ReportsOk(cfg, s.consumer.ticks, s.consumer.reported, s.consumerReports, s.fromConsumer)
  }

  /** Ticks, sends, receipts, reports and collected reports so far. */
  function Work(s: State): nat {
    |s.producer.ticks| + s.producer.sent + s.producer.reported
    + |s.consumer.received| + |s.consumer.ticks| + s.consumer.reported
    + |s.fromProducer.ticks| + |s.fromConsumer.ticks|
  }

  /** How many threads have failed; only these two can. */
  function Failures(failed: set<Thread>): (n: nat)
    ensures n <= 2
  {
    (if ProducerThread in failed then 1 else 0) + (if ConsumerThread in failed then 1 else 0)
  }

  /** One more unit of work, and nobody has failed by it. */
  predicate Worked(cfg: Config, s: State, u: State) {
    Core(cfg, u) && Work(u) == Work(s) + 1 && u.failed == s.failed
  }

  // ----- steps -----

  /** Before anything is reported, the list of ticks may still grow. */
  lemma ReportsExtend(cfg: Config, ticks: seq<int>, t: int, queue: seq<Message>, c: Collector)
    requires ReportsOk(cfg, ticks, 0, queue, c)
    ensures ReportsOk(cfg, ticks + [t], 0, queue, c)
  {
    assert queue == [];
    assert c.ticks == [];
  }

  lemma ReportsPut(cfg: Config, ticks: seq<int>, reported: nat, queue: seq<Message>, c: Collector)
    requires ReportsOk(cfg, ticks, reported, queue, c) && reported < |ticks|
    ensures ReportsOk(cfg, ticks, reported + 1, queue + [PackTick(cfg, ticks[reported])], c)
  {
    PackTicksAt(cfg, ticks, reported);
    PutHolds(queue, PackTicks(cfg, ticks), |c.ticks|, reported);
  }

  lemma ReportsCollect(cfg: Config, ticks: seq<int>, reported: nat, queue: seq<Message>, c: Collector, now: int)
    requires ReportsOk(cfg, ticks, reported, queue, c) && queue != []
    requires Rising(ticks, now) && now < TICK_LIMIT
    ensures Collected(cfg.packer, c, queue[0]).Some?
    ensures var c' := Collected(cfg.packer, c, queue[0]).value;
            |c'.ticks| == |c.ticks| + 1 && ReportsOk(cfg, ticks, reported, queue[1..], c')
  {
    var n := |c.ticks|;
    GetHolds(queue, PackTicks(cfg, ticks), n, reported);
    PackTicksAt(cfg, ticks, n);
    CollectedIs(cfg, c, ticks[n]);
    Sequences.TakeOneMore(ticks, n);
  }

  lemma ProducerTickKeeps(cfg: Config, s: State, t: int)
    requires Core(cfg, s) && Enabled(cfg, s, ProducerTick(t))
    ensures var u := Apply(cfg, s, ProducerTick(t)); Worked(cfg, s, u)
  {
    hide Rising, ReportsOk, Holds, MessageFits;
    RisingExtend(s.producer.ticks, s.now, t);
    RisingExtend(s.consumer.ticks, s.now, t);
    ReportsExtend(cfg, s.producer.ticks, t, s.producerReports, s.fromProducer);
  }

  lemma SentOk(cfg: Config, p: Producer, c: Consumer)
    requires ProducerOk(cfg, p) && ConsumerOk(cfg, c, p.sent)
    requires WantsSend(cfg, p) && MessageFits(cfg.dataCapacity, cfg.messages[p.sent])
    ensures ProducerOk(cfg, p.(sent := p.sent + 1)) && ConsumerOk(cfg, c, p.sent + 1)
  {
    hide MessageFits;
  }

  lemma SentCore(cfg: Config, s: State, data: seq<Message>)
    requires Core(cfg, s) && WantsSend(cfg, s.producer) && ProducerThread !in s.failed
    requires Holds(data, PackStrings(cfg, cfg.messages), |s.consumer.received|, s.producer.sent + 1)
    requires MessageFits(cfg.dataCapacity, cfg.messages[s.producer.sent])
    ensures Core(cfg, s.(data := data, producer := s.producer.(sent := s.producer.sent + 1)))
  {
    hide Rising, Paired, ReportsOk, Holds, ProducerBroken, ConsumerBroken, MessageFits, ProducerOk, ConsumerOk;
    SentOk(cfg, s.producer, s.consumer);
  }

  lemma SentHolds(cfg: Config, s: State)
    requires Core(cfg, s) && WantsSend(cfg, s.producer)
    ensures Holds(s.data + [PackString(cfg, cfg.messages[s.producer.sent])],
                  PackStrings(cfg, cfg.messages), |s.consumer.received|, s.producer.sent + 1)
  {
    hide Rising, Paired, ProducerOk, ConsumerOk, ReportsOk, FailuresOk, Holds;
    PackStringsAt(cfg, cfg.messages, s.producer.sent);
    PutHolds(s.data, PackStrings(cfg, cfg.messages), |s.consumer.received|, s.producer.sent);
  }

  lemma SendsData(cfg: Config, s: State)
    requires Enabled(cfg, s, ProducerSend) && MessageFits(cfg.dataCapacity, cfg.messages[s.producer.sent])
    ensures Apply(cfg, s, ProducerSend) ==
            s.(data := s.data + [PackString(cfg, cfg.messages[s.producer.sent])],
               producer := s.producer.(sent := s.producer.sent + 1))
  {
    StringSize(cfg, cfg.dataCapacity, cfg.messages[s.producer.sent]);
  }

  lemma ProducerSendKeeps(cfg: Config, s: State)
    requires Core(cfg, s) && Enabled(cfg, s, ProducerSend)
    requires MessageFits(cfg.dataCapacity, cfg.messages[s.producer.sent])
    ensures var u := Apply(cfg, s, ProducerSend); Worked(cfg, s, u)
  {
    SentHolds(cfg, s);
    SentCore(cfg, s, s.data + [PackString(cfg, cfg.messages[s.producer.sent])]);
    SendsData(cfg, s);
  }

  lemma ProducerReportedCore(cfg: Config, s: State, payload: Message)
    requires Core(cfg, s) && WantsReport(cfg, s.producer) && ProducerThread !in s.failed && ReportFits(cfg.producerReportCapacity)
    requires payload == PackTick(cfg, s.producer.ticks[s.producer.reported])
    ensures Core(cfg, s.(producerReports := s.producerReports + [payload],
                         producer := s.producer.(reported := s.producer.reported + 1)))
  {
    hide Rising, Paired, ReportsOk, MessageFits;
    ReportsPut(cfg, s.producer.ticks, s.producer.reported, s.producerReports, s.fromProducer);
  }

  lemma ProducerReportKeeps(cfg: Config, s: State)
    requires Core(cfg, s) && Enabled(cfg, s, ProducerReport) && ReportFits(cfg.producerReportCapacity)
    ensures var u := Apply(cfg, s, ProducerReport); Worked(cfg, s, u)
  {
    hide Rising, Paired, ReportsOk, Holds, MessageFits, Core, PackTick;
    TickSize(cfg, cfg.producerReportCapacity, s.producer.ticks[s.producer.reported]);
    ProducerReportedCore(cfg, s, PackTick(cfg, s.producer.ticks[s.producer.reported]));
  }

  lemma ReceivedCore(cfg: Config, s: State, received: seq<Message>, data: seq<Message>, buffer: seq<Byte>)
    requires Core(cfg, s) && ConsumerThread !in s.failed
    requires |s.consumer.ticks| == |s.consumer.received| < s.producer.sent
    requires |received| == |s.consumer.received| + 1 && received == cfg.messages[..|received|]
    requires Holds(data, PackStrings(cfg, cfg.messages), |received|, s.producer.sent) && |buffer| == BUFFER_CAPACITY
    ensures Core(cfg, s.(data := data, consumer := s.consumer.(received := received, buffer := buffer)))
  {
    hide Rising, Paired, ReportsOk, Holds, ProducerOk;
  }

  lemma ReceivedHolds(cfg: Config, s: State)
    requires Core(cfg, s) && s.data != []
    ensures var n := |s.consumer.received|;
            && n < s.producer.sent && n < |cfg.messages|
            && s.consumer.received + [cfg.messages[n]] == cfg.messages[..n + 1]
            && Holds(s.data[1..], PackStrings(cfg, cfg.messages), n + 1, s.producer.sent)
  {
    hide Rising, Paired, ReportsOk, FailuresOk;
    GetHolds(s.data, PackStrings(cfg, cfg.messages), |s.consumer.received|, s.producer.sent);
    Sequences.TakeOneMore(cfg.messages, |s.consumer.received|);
  }

  /** The payload at the head of the data channel is the next message, and it unpacks. */
  lemma HeadUnpacks(cfg: Config, s: State)
    requires Core(cfg, s) && s.data != []
    ensures var n := |s.consumer.received|;
            && n < |cfg.messages| && |s.data[0]| <= |s.consumer.buffer|
            && Unpacked(cfg.packer, SString, s.consumer.buffer, s.data[0]) == Some(VString(cfg.messages[n]))
  {
    var n := |s.consumer.received|;
    GetHolds(s.data, PackStrings(cfg, cfg.messages), n, s.producer.sent);
    PackStringsAt(cfg, cfg.messages, n);
    StringSize(cfg, cfg.dataCapacity, cfg.messages[n]);
    UnpackedIs(cfg.packer, SString, VString(cfg.messages[n]), s.consumer.buffer);
  }

  lemma ConsumerReceiveKeeps(cfg: Config, s: State)
    requires Core(cfg, s) && Enabled(cfg, s, ConsumerReceive)
    ensures var u := Apply(cfg, s, ConsumerReceive); Worked(cfg, s, u)
  {
    hide Rising, Paired, ReportsOk, Holds, ProducerOk, FailuresOk, MessageFits;
    var received := s.consumer.received + [cfg.messages[|s.consumer.received|]];
    HeadUnpacks(cfg, s);
    ReceivedHolds(cfg, s);
    ReceivedCore(cfg, s, received, s.data[1..], Overlay(s.consumer.buffer, s.data[0]));
  }

  lemma ConsumerTickKeeps(cfg: Config, s: State, t: int)
    requires Core(cfg, s) && Enabled(cfg, s, ConsumerTick(t))
    ensures var u := Apply(cfg, s, ConsumerTick(t)); Worked(cfg, s, u)
  {
    hide Rising, ReportsOk, Holds, MessageFits;
    RisingExtend(s.producer.ticks, s.now, t);
    RisingExtend(s.consumer.ticks, s.now, t);
    ReportsExtend(cfg, s.consumer.ticks, t, s.consumerReports, s.fromConsumer);
  }

  lemma ConsumerReportedCore(cfg: Config, s: State, payload: Message)
    requires Core(cfg, s) && WantsConsumerReport(cfg, s.consumer) && ConsumerThread !in s.failed && ReportFits(cfg.consumerReportCapacity)
    requires payload == PackTick(cfg, s.consumer.ticks[s.consumer.reported])
    ensures Core(cfg, s.(consumerReports := s.consumerReports + [payload],
                         consumer := s.consumer.(reported := s.consumer.reported + 1)))
  {
    hide Rising, Paired, ReportsOk, MessageFits;
    ReportsPut(cfg, s.consumer.ticks, s.consumer.reported, s.consumerReports, s.fromConsumer);
  }

  lemma ConsumerReportKeeps(cfg: Config, s: State)
    requires Core(cfg, s) && Enabled(cfg, s, ConsumerReport) && ReportFits(cfg.consumerReportCapacity)
    ensures var u := Apply(cfg, s, ConsumerReport); Worked(cfg, s, u)
  {
    hide Rising, Paired, ReportsOk, Holds, MessageFits, Core, PackTick;
    TickSize(cfg, cfg.consumerReportCapacity, s.consumer.ticks[s.consumer.reported]);
    ConsumerReportedCore(cfg, s, PackTick(cfg, s.consumer.ticks[s.consumer.reported]));
  }

  lemma CollectFromProducerKeeps(cfg: Config, s: State)
    requires Core(cfg, s) && Enabled(cfg, s, CollectFromProducer)
    ensures var u := Apply(cfg, s, CollectFromProducer); Worked(cfg, s, u)
  {
    hide Rising, Paired, ReportsOk, Holds, ProducerOk, ConsumerOk, FailuresOk;
    ReportsCollect(cfg, s.producer.ticks, s.producer.reported, s.producerReports, s.fromProducer, s.now);
  }

  lemma CollectFromConsumerKeeps(cfg: Config, s: State)
    requires Core(cfg, s) && Enabled(cfg, s, CollectFromConsumer)
    ensures var u := Apply(cfg, s, CollectFromConsumer); Worked(cfg, s, u)
  {
    hide Rising, Paired, ReportsOk, Holds, ProducerOk, ConsumerOk, FailuresOk;
    ReportsCollect(cfg, s.consumer.ticks, s.consumer.reported, s.consumerReports, s.fromConsumer, s.now);
  }

  lemma InitCore(cfg: Config, s: State)
    requires Init(cfg, s)
    ensures Core(cfg, s) && Work(s) == 0
  {
  }

  /** The payload of a sending step is accepted by its channel. */
  predicate SendAccepted(cfg: Config, s: State, step: Step)
    requires Enabled(cfg, s, step)
  {
    match step
    case ProducerSend => MessageFits(cfg.dataCapacity, cfg.messages[s.producer.sent])
    case ProducerReport => ReportFits(cfg.producerReportCapacity)
    case ConsumerReport => ReportFits(cfg.consumerReportCapacity)
    case _ => true
  }

  lemma AcceptedKeeps(cfg: Config, s: State, step: Step)
    requires Core(cfg, s) && Enabled(cfg, s, step) && SendAccepted(cfg, s, step)
    ensures var u := Apply(cfg, s, step); Worked(cfg, s, u)
  {
    match step
    case ProducerTick(t) => ProducerTickKeeps(cfg, s, t);
    case ProducerSend => ProducerSendKeeps(cfg, s);
    case ProducerReport => ProducerReportKeeps(cfg, s);
    case ConsumerReceive => ConsumerReceiveKeeps(cfg, s);
    case ConsumerTick(t) => ConsumerTickKeeps(cfg, s, t);
    case ConsumerReport => ConsumerReportKeeps(cfg, s);
    case CollectFromProducer => CollectFromProducerKeeps(cfg, s);
    case CollectFromConsumer => CollectFromConsumerKeeps(cfg, s);
  }

  lemma FailedCore(cfg: Config, s: State, t: Thread)
    requires Core(cfg, s) && t !in s.failed
    requires (t == ProducerThread && ProducerBroken(cfg, s.producer)) || (t == ConsumerThread && ConsumerBroken(cfg, s.consumer))
    ensures Core(cfg, Failed(s, t)) && Work(Failed(s, t)) == Work(s)
    ensures Failures(Failed(s, t).failed) == Failures(s.failed) + 1
  {
    hide Rising, Paired, ProducerOk, ConsumerOk, ReportsOk, Holds;
  }

  lemma RejectedFails(cfg: Config, s: State, step: Step)
    requires Enabled(cfg, s, step) && !SendAccepted(cfg, s, step)
    ensures Apply(cfg, s, step) == Failed(s, Owner(step))
    ensures match Owner(step)
            case ProducerThread => ProducerBroken(cfg, s.producer)
            case ConsumerThread => ConsumerBroken(cfg, s.consumer)
            case _ => false
  {
    match step
    case ProducerSend => StringSize(cfg, cfg.dataCapacity, cfg.messages[s.producer.sent]);
    case ProducerReport => TickSize(cfg, cfg.producerReportCapacity, s.producer.ticks[s.producer.reported]);
    case ConsumerReport => TickSize(cfg, cfg.consumerReportCapacity, s.consumer.ticks[s.consumer.reported]);
    case _ =>
  }

  /** Every step keeps the invariant. It does one unit of work if what it sends fits, if
      anything; otherwise nothing changes but that its thread has failed. */
  lemma StepKeepsCore(cfg: Config, s: State, step: Step)
    requires Core(cfg, s) && Enabled(cfg, s, step)
    ensures var u := Apply(cfg, s, step);
            && Core(cfg, u)
            && (if SendAccepted(cfg, s, step) then Work(u) == Work(s) + 1 && u.failed == s.failed
                else u == Failed(s, Owner(step)) && Work(u) == Work(s) && Failures(u.failed) == Failures(s.failed) + 1)
  {
    if SendAccepted(cfg, s, step) {
      AcceptedKeeps(cfg, s, step);
    } else {
      RejectedFails(cfg, s, step);
      FailedCore(cfg, s, Owner(step));
    }
  }

  // ----- channels -----

  /** Each step changes each of the three queues as a bounded first-in first-out channel
      of its capacity does: the channel that the ring is proved to refine. */
  lemma ChannelsAreFifos(cfg: Config, s: State, step: Step)
    requires Enabled(cfg, s, step)
    ensures var u := Apply(cfg, s, step);
            && FifoStep(cfg.dataCapacity, s.data, u.data)
            && FifoStep(cfg.producerReportCapacity, s.producerReports, u.producerReports)
            && FifoStep(cfg.consumerReportCapacity, s.consumerReports, u.consumerReports)
  {
  }
}
