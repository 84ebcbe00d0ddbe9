/** The measurement protocol: the Producer, the Consumer and the two collecting threads of
    the Analyzer as a state machine over three bounded channels. Every thread is at a point
    of its loop given by its counters; a step is one action of one thread. A step that
    would wait is not enabled, so waiting takes no steps. A thread whose step throws has
    failed and takes no more steps; the others go on. */
module Protocol {
  import opened Wrappers
  import opened Bytes
  import opened RingIndex
  import opened Fifo
  import opened ByteBuffer
  import opened PackerSpec

  const TICK_LIMIT: nat := 0x8000_0000_0000_0000

  /** The generated messages, the packer of the connection type, and the capacities of the
      data channel and of the two report channels. */
  datatype Config = Config(
    messages: seq<Message>,
    packer: Packer,
    dataCapacity: nat,
    producerReportCapacity: nat,
    consumerReportCapacity: nat)

  datatype Thread = ProducerThread | ConsumerThread | ProducerCollector | ConsumerCollector

  datatype Producer = Producer(ticks: seq<int>, sent: nat, reported: nat)

  datatype Consumer = Consumer(received: seq<Message>, ticks: seq<int>, reported: nat, buffer: seq<Byte>)

  datatype Collector = Collector(ticks: seq<int>, buffer: seq<Byte>)

  datatype State = State(
    now: int,
    producer: Producer,
    consumer: Consumer,
    fromProducer: Collector,
    fromConsumer: Collector,
    data: seq<Message>,
    producerReports: seq<Message>,
    consumerReports: seq<Message>,
    failed: set<Thread>)

  datatype Step =
    | ProducerTick(now: int)
    | ProducerSend
    | ProducerReport
    | ConsumerReceive
    | ConsumerTick(now: int)
    | ConsumerReport
    | CollectFromProducer
    | CollectFromConsumer

  /** The thread that takes the step. */
  function Owner(step: Step): Thread {
    match step
    case ProducerTick(_) => ProducerThread
    case ProducerSend => ProducerThread
    case ProducerReport => ProducerThread
    case ConsumerReceive => ConsumerThread
    case ConsumerTick(_) => ConsumerThread
    case ConsumerReport => ConsumerThread
    case CollectFromProducer => ProducerCollector
    case CollectFromConsumer => ConsumerCollector
  }

  function PackString(cfg: Config, m: Message): Message { Encode(cfg.packer, VString(m)) }

  function PackTick(cfg: Config, tick: int): Message { Encode(cfg.packer, VPrimitive(PTick(tick))) }

  /** Neither packing nor pushing throws for this payload. */
  predicate Accepts(capacity: nat, payload: Message) {
    |payload| <= BUFFER_CAPACITY && HEADER + |payload| <= capacity
  }

  /** A send throws at once or proceeds when the channel admits the payload. */
  predicate MaySend(capacity: nat, queue: seq<Message>, payload: Message) {
    !Accepts(capacity, payload) || Admits(capacity, queue, payload)
  }

  /** Receiving overwrites the front of the buffer and leaves older bytes behind. */
  function Overlay(buffer: seq<Byte>, payload: Message): seq<Byte>
    requires |payload| <= |buffer|
  {
    payload + buffer[|payload|..]
  }

  /** `Pop` rejects a payload larger than the buffer, `Unpack` a buffer that does not parse. */
  function Unpacked(pk: Packer, s: Schema, buffer: seq<Byte>, payload: Message): Option<Value> {
    if |buffer| < |payload| then None
    else
      match Parse(pk, s, Overlay(buffer, payload), 0)
      case None => None
      case Some((v, _)) => Some(v)
  }

  /** The next action of the Producer: tick, send the message ticked for, or report. */
  predicate WantsTick(cfg: Config, p: Producer) { p.sent == |p.ticks| < |cfg.messages| }

  predicate WantsSend(cfg: Config, p: Producer) { p.sent < |p.ticks| && p.sent < |cfg.messages| }

  predicate WantsReport(cfg: Config, p: Producer) {
    p.sent == |p.ticks| == |cfg.messages| && p.reported < |p.ticks|
  }

  predicate WantsConsumerReport(cfg: Config, c: Consumer) {
    |c.ticks| == |cfg.messages| && c.reported < |c.ticks|
  }

  predicate Enabled(cfg: Config, s: State, step: Step) {
    && Owner(step) !in s.failed
    && match step
       case ProducerTick(t) => WantsTick(cfg, s.producer) && s.now <= t < TICK_LIMIT
       case ProducerSend =>
         && WantsSend(cfg, s.producer)
         && MaySend(cfg.dataCapacity, s.data, PackString(cfg, cfg.messages[s.producer.sent]))
       case ProducerReport =>
         && WantsReport(cfg, s.producer)
         && MaySend(cfg.producerReportCapacity, s.producerReports, PackTick(cfg, s.producer.ticks[s.producer.reported]))
       case ConsumerReceive =>
         |s.consumer.ticks| == |s.consumer.received| && |s.consumer.ticks| != |cfg.messages| && s.data != []
       case ConsumerTick(t) => |s.consumer.ticks| < |s.consumer.received| && s.now <= t < TICK_LIMIT
       case ConsumerReport =>
         && WantsConsumerReport(cfg, s.consumer)
         && MaySend(cfg.consumerReportCapacity, s.consumerReports, PackTick(cfg, s.consumer.ticks[s.consumer.reported]))
       case CollectFromProducer => |s.fromProducer.ticks| != |cfg.messages| && s.producerReports != []
       case CollectFromConsumer => |s.fromConsumer.ticks| != |cfg.messages| && s.consumerReports != []
  }

  function Failed(s: State, t: Thread): State { s.(failed := s.failed + {t}) }

  function SendData(cfg: Config, s: State): State
    requires Enabled(cfg, s, ProducerSend)
  {
    var payload := PackString(cfg, cfg.messages[s.producer.sent]);
    if !Accepts(cfg.dataCapacity, payload) then Failed(s, ProducerThread)
    else s.(data := s.data + [payload], producer := s.producer.(sent := s.producer.sent + 1))
  }

  function SendProducerReport(cfg: Config, s: State): State
    requires Enabled(cfg, s, ProducerReport)
  {
    var payload := PackTick(cfg, s.producer.ticks[s.producer.reported]);
    if !Accepts(cfg.producerReportCapacity, payload) then Failed(s, ProducerThread)
    else s.(producerReports := s.producerReports + [payload],
            producer := s.producer.(reported := s.producer.reported + 1))
  }

  function SendConsumerReport(cfg: Config, s: State): State
    requires Enabled(cfg, s, ConsumerReport)
  {
    var payload := PackTick(cfg, s.consumer.ticks[s.consumer.reported]);
    if !Accepts(cfg.consumerReportCapacity, payload) then Failed(s, ConsumerThread)
    else s.(consumerReports := s.consumerReports + [payload],
            consumer := s.consumer.(reported := s.consumer.reported + 1))
  }

  function ReceiveData(cfg: Config, s: State): State
    requires Enabled(cfg, s, ConsumerReceive)
  {
    var c, payload := s.consumer, s.data[0];
    match Unpacked(cfg.packer, SString, c.buffer, payload)
    case Some(VString(m)) =>
      s.(data := s.data[1..],
         consumer := c.(received := c.received + [m],
                        buffer := if |payload| <= |c.buffer| then Overlay(c.buffer, payload) else c.buffer))
    case _ => Failed(s, ConsumerThread)
  }

  /** One round of a collecting thread; nothing if the payload is rejected. */
  function Collected(pk: Packer, c: Collector, payload: Message): Option<Collector> {
    match Unpacked(pk, SPrimitive(Tick), c.buffer, payload)
    case Some(VPrimitive(PTick(t))) =>
      Some(Collector(c.ticks + [t], if |payload| <= |c.buffer| then Overlay(c.buffer, payload) else c.buffer))
    case _ => None
  }

  function Apply(cfg: Config, s: State, step: Step): State
    requires Enabled(cfg, s, step)
  {
    match step
    case ProducerTick(t) => s.(now := t, producer := s.producer.(ticks := s.producer.ticks + [t]))
    case ProducerSend => SendData(cfg, s)
    case ProducerReport => SendProducerReport(cfg, s)
    case ConsumerReceive => ReceiveData(cfg, s)
    case ConsumerTick(t) => s.(now := t, consumer := s.consumer.(ticks := s.consumer.ticks + [t]))
    case ConsumerReport => SendConsumerReport(cfg, s)
    case CollectFromProducer =>
      (match Collected(cfg.packer, s.fromProducer, s.producerReports[0])
       case Some(c) => s.(fromProducer := c, producerReports := s.producerReports[1..])
       case None => Failed(s, ProducerCollector))
    case CollectFromConsumer =>
      match Collected(cfg.packer, s.fromConsumer, s.consumerReports[0])
      case Some(c) => s.(fromConsumer := c, consumerReports := s.consumerReports[1..])
      case None => Failed(s, ConsumerCollector)
  }

  predicate Init(cfg: Config, s: State) {
    && 0 <= s.now < TICK_LIMIT && s.failed == {}
    && s.producer == Producer([], 0, 0)
    && s.consumer == Consumer([], [], 0, s.consumer.buffer)
    && s.fromProducer.ticks == [] && s.fromConsumer.ticks == []
    && s.data == [] && s.producerReports == [] && s.consumerReports == []
    && |s.consumer.buffer| == |s.fromProducer.buffer| == |s.fromConsumer.buffer| == BUFFER_CAPACITY
  }

  /** The thread has left its last loop. */
  predicate Done(cfg: Config, s: State, t: Thread) {
    var n := |cfg.messages|;
    match t
    case ProducerThread => s.producer.sent == |s.producer.ticks| == s.producer.reported == n
    case ConsumerThread => |s.consumer.received| == |s.consumer.ticks| == s.consumer.reported == n
    case ProducerCollector => |s.fromProducer.ticks| == n
    case ConsumerCollector => |s.fromConsumer.ticks| == n
  }

  /** All threads are done, so that the Analyzer has joined both collecting threads. */
  predicate Finished(cfg: Config, s: State) {
    && Done(cfg, s, ProducerThread) && Done(cfg, s, ConsumerThread)
    && Done(cfg, s, ProducerCollector) && Done(cfg, s, ConsumerCollector)
  }

  /** No thread can take a step any more. */
  ghost predicate Stuck(cfg: Config, s: State) { forall step :: !Enabled(cfg, s, step) }

  predicate IsRun(cfg: Config, s: State, steps: seq<Step>)
    decreases |steps|
  {
    steps == [] || (Enabled(cfg, s, steps[0]) && IsRun(cfg, Apply(cfg, s, steps[0]), steps[1..]))
  }

  function Final(cfg: Config, s: State, steps: seq<Step>): State
    requires IsRun(cfg, s, steps)
    decreases |steps|
  {
    if steps == [] then s else Final(cfg, Apply(cfg, s, steps[0]), steps[1..])
  }
}
