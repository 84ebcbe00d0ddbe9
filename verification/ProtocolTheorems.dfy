/** Whole runs of the measurement protocol: no deadlock, termination, which threads finish,
    and the pairing of send and receive ticks. */
module ProtocolTheorems {
  import opened Wrappers
  import opened RingIndex
  import opened ByteBuffer
  import opened PackerSpec
  import opened Fifo
  import opened Quantiles
  import opened Statistics
  import opened Protocol
  import opened ProtocolSafety

  /** The capacities of rings, which are multiples of 4. */
  predicate RingCapacities(cfg: Config) {
    cfg.dataCapacity % 4 == 0 && cfg.producerReportCapacity % 4 == 0 && cfg.consumerReportCapacity % 4 == 0
  }

  // ----- no deadlock -----

  lemma EmptyChannelAdmits(capacity: nat, queue: seq<Message>, payload: Message)
    requires capacity % 4 == 0 && queue == []
    ensures MaySend(capacity, queue, payload)
  {
    AdmissionIsAligned(capacity, |payload|);
  }

  /** A Producer that cannot act is done or has failed, or a channel before it is full. */
  lemma ProducerActs(cfg: Config, s: State) returns (step: Option<Step>)
    requires Core(cfg, s) && RingCapacities(cfg)
    ensures step.Some? ==> Enabled(cfg, s, step.value)
    ensures step == None ==>
              s.data != [] || s.producerReports != [] || ProducerThread in s.failed || Done(cfg, s, ProducerThread)
  {
    hide Rising, Paired, ReportsOk, Holds, ConsumerOk, FailuresOk, MessageFits;
    var p := s.producer;
    if ProducerThread in s.failed {
      return None;
    } else if p.sent < |p.ticks| {
      if s.data == [] {
        EmptyChannelAdmits(cfg.dataCapacity, s.data, PackString(cfg, cfg.messages[p.sent]));
        return Some(ProducerSend);
      }
    } else if p.sent < |cfg.messages| {
      return Some(ProducerTick(s.now));
    } else if p.reported < |p.ticks| && s.producerReports == [] {
      EmptyChannelAdmits(cfg.producerReportCapacity, s.producerReports, PackTick(cfg, p.ticks[p.reported]));
      return Some(ProducerReport);
    }
    step := None;
  }

  /** A Consumer that cannot act is done or has failed, or its report channel is full, or
      it has received all that was sent so far. */
  lemma ConsumerActs(cfg: Config, s: State) returns (step: Option<Step>)
    requires Core(cfg, s) && RingCapacities(cfg)
    ensures step.Some? ==> Enabled(cfg, s, step.value)
    ensures step == None ==>
              || s.consumerReports != []
              || ConsumerThread in s.failed
              || Done(cfg, s, ConsumerThread)
              || (s.data == [] && |s.consumer.ticks| == |s.consumer.received| < |cfg.messages|)
  {
    hide Rising, Paired, ReportsOk, Holds, ProducerOk, FailuresOk, MessageFits;
    var c := s.consumer;
    if ConsumerThread in s.failed {
      return None;
    } else if |c.ticks| < |c.received| {
      return Some(ConsumerTick(s.now));
    } else if |c.ticks| < |cfg.messages| && s.data != [] {
      return Some(ConsumerReceive);
    } else if |c.ticks| == |cfg.messages| && c.reported < |c.ticks| && s.consumerReports == [] {
      EmptyChannelAdmits(cfg.consumerReportCapacity, s.consumerReports, PackTick(cfg, c.ticks[c.reported]));
      return Some(ConsumerReport);
    }
    step := None;
  }

  /** What the data channel holds was sent and is not yet received. */
  lemma DataIsUnreceived(cfg: Config, s: State)
    requires Core(cfg, s)
    ensures s.data == [] <==> |s.consumer.received| == s.producer.sent
    ensures |s.consumer.received| <= s.producer.sent <= |cfg.messages|
    ensures ConsumerThread in s.failed ==> s.data == [] && |s.consumer.received| == |cfg.messages|
  {
    hide Rising, Paired, ReportsOk, MessageFits;
  }

  lemma ReportsAreCollectable(cfg: Config, s: State)
    requires Core(cfg, s)
    ensures s.producerReports != [] ==> Enabled(cfg, s, CollectFromProducer)
    ensures s.consumerReports != [] ==> Enabled(cfg, s, CollectFromConsumer)
  {
    hide Rising, Paired, MessageFits;
  }

  /** Where a run has come to rest if neither side has anything to do. */
  predicate AtRest(cfg: Config, s: State) {
    && s.data == [] && s.producerReports == [] && s.consumerReports == []
    && (ProducerThread in s.failed || Done(cfg, s, ProducerThread))
    && (ConsumerThread in s.failed || Done(cfg, s, ConsumerThread) || |s.consumer.received| < |cfg.messages|)
  }

  /** Some thread can act, or the run has come to rest. */
  lemma SomeStep(cfg: Config, s: State) returns (step: Option<Step>)
    requires Core(cfg, s) && RingCapacities(cfg)
    ensures step.Some? ==> Enabled(cfg, s, step.value)
    ensures step == None ==> AtRest(cfg, s)
  {
    hide Core, Enabled;
    ReportsAreCollectable(cfg, s);
    DataIsUnreceived(cfg, s);
    if s.producerReports != [] {
      return Some(CollectFromProducer);
    }
    if s.consumerReports != [] {
      return Some(CollectFromConsumer);
    }
    step := ProducerActs(cfg, s);
    if step == None {
      step := ConsumerActs(cfg, s);
    }
  }

  // ----- which steps are allowed -----

  /** Which steps a state of a run allows, in terms of counters and sizes. A thread waits
      exactly for room for the whole record of what it sends, or for something to receive;
      what can never fit is not waited for. The clock may show any time from now on. */
  lemma EnabledExactly(cfg: Config, s: State, step: Step)
    requires Core(cfg, s)
    ensures Enabled(cfg, s, step) <==>
              var n := |cfg.messages|;
              match step
              case ProducerTick(t) =>
                ProducerThread !in s.failed && s.producer.sent == |s.producer.ticks| < n && s.now <= t < TICK_LIMIT
              case ProducerSend =>
                && ProducerThread !in s.failed && s.producer.sent < |s.producer.ticks| && s.producer.sent < n
                && var size := WORD_BYTES + |cfg.messages[s.producer.sent]|;
                   (size <= BUFFER_CAPACITY && HEADER + size <= cfg.dataCapacity ==>
                      Total(s.data) + RecordSize(size) <= cfg.dataCapacity)
              case ProducerReport =>
                && ProducerThread !in s.failed && s.producer.sent == n && s.producer.reported < |s.producer.ticks|
                && (HEADER + WORD_BYTES <= cfg.producerReportCapacity ==>
                      Total(s.producerReports) + RecordSize(WORD_BYTES) <= cfg.producerReportCapacity)
              case ConsumerReceive =>
                && ConsumerThread !in s.failed
                && |s.consumer.ticks| == |s.consumer.received| < s.producer.sent
              case ConsumerTick(t) =>
                && ConsumerThread !in s.failed
                && |s.consumer.ticks| < |s.consumer.received| && s.now <= t < TICK_LIMIT
              case ConsumerReport =>
                && ConsumerThread !in s.failed && |s.consumer.ticks| == n && s.consumer.reported < n
                && (HEADER + WORD_BYTES <= cfg.consumerReportCapacity ==>
                      Total(s.consumerReports) + RecordSize(WORD_BYTES) <= cfg.consumerReportCapacity)
              case CollectFromProducer => |s.fromProducer.ticks| < s.producer.reported
              case CollectFromConsumer => |s.fromConsumer.ticks| < s.consumer.reported
  {
    hide Rising, Paired, Total, RecordSize, PackString, PackTick, PackStrings, PackTicks;
    match step
    case ProducerSend =>
      if s.producer.sent < |cfg.messages| {
        StringSize(cfg, cfg.dataCapacity, cfg.messages[s.producer.sent]);
      }
    case ProducerReport =>
      if s.producer.reported < |s.producer.ticks| {
        TickSize(cfg, cfg.producerReportCapacity, s.producer.ticks[s.producer.reported]);
      }
    case ConsumerReport =>
      if s.consumer.reported < |s.consumer.ticks| {
        TickSize(cfg, cfg.consumerReportCapacity, s.consumer.ticks[s.consumer.reported]);
      }
    case _ =>
  }

  // ----- who finishes -----

  lemma DoneSent(cfg: Config, s: State)
    requires Core(cfg, s)
    ensures Done(cfg, s, ProducerThread) ==> Completes(cfg, ProducerThread)
    ensures Done(cfg, s, ConsumerThread) ==> Completes(cfg, ConsumerThread)
    ensures s.producer.sent == |cfg.messages| ==> MessagesFit(cfg)
  {
    hide Rising, Paired, ReportsOk, Holds, FailuresOk, MessageFits;
  }

  /** The collecting threads hold prefixes of what has been reported. */
  lemma CollectedReports(cfg: Config, s: State)
    requires Core(cfg, s)
    ensures |s.fromProducer.ticks| <= s.producer.reported <= |cfg.messages|
    ensures |s.fromConsumer.ticks| <= s.consumer.reported <= |cfg.messages|
    ensures s.producerReports == [] ==> |s.fromProducer.ticks| == s.producer.reported
    ensures s.consumerReports == [] ==> |s.fromConsumer.ticks| == s.consumer.reported
    ensures 0 < s.producer.reported ==> s.producer.sent == |s.producer.ticks| == |cfg.messages|
    ensures 0 < s.consumer.reported ==> |s.consumer.received| == |s.consumer.ticks| == |cfg.messages|
  {
    hide Rising, Paired, FailuresOk, MessageFits;
  }

  lemma FailedUnfit(cfg: Config, s: State)
    requires Core(cfg, s)
    ensures ProducerThread in s.failed ==> !Completes(cfg, ProducerThread) && s.producer.reported < |cfg.messages|
    ensures ProducerThread in s.failed && s.producer.sent < |cfg.messages| ==>
              !MessagesFit(cfg) && !MessageFits(cfg.dataCapacity, cfg.messages[s.producer.sent])
    ensures ConsumerThread in s.failed ==>
              MessagesFit(cfg) && !Completes(cfg, ConsumerThread) && s.consumer.reported < |cfg.messages|
  {
    hide Rising, Paired, ReportsOk, Holds, MessageFits;
  }

  /** A thread that is done has sent, or been sent, all that it needs. */
  lemma DoneCompletes(cfg: Config, s: State, t: Thread)
    requires Core(cfg, s) && Done(cfg, s, t)
    ensures Completes(cfg, t)
  {
    hide Core, Completes, MessagesFit;
    DoneSent(cfg, s);
    CollectedReports(cfg, s);
    if cfg.messages != [] {
      CollectorCompletes(cfg, t);
    } else {
      NothingToSend(cfg, t);
    }
  }

  lemma CollectorCompletes(cfg: Config, t: Thread)
    ensures Completes(cfg, ProducerCollector) == Completes(cfg, ProducerThread)
    ensures Completes(cfg, ConsumerCollector) == Completes(cfg, ConsumerThread)
  {
  }

  lemma NothingToSend(cfg: Config, t: Thread)
    requires cfg.messages == []
    ensures Completes(cfg, t)
  {
  }

  /** Where a run has come to rest, exactly those threads are done for which everything
      fits; a Consumer without a message to receive waits for one that did not fit. */
  lemma RestOutcome(cfg: Config, s: State)
    requires Core(cfg, s) && AtRest(cfg, s)
    ensures forall t: Thread :: Done(cfg, s, t) <==> Completes(cfg, t)
    ensures ProducerThread in s.failed <==> !Completes(cfg, ProducerThread)
    ensures ConsumerThread in s.failed <==> MessagesFit(cfg) && !Completes(cfg, ConsumerThread)
    ensures |s.consumer.received| == s.producer.sent
    ensures s.producer.sent < |cfg.messages| ==> !MessageFits(cfg.dataCapacity, cfg.messages[s.producer.sent])
  {
    hide Core, Completes, MessagesFit, MessageFits;
    DoneSent(cfg, s);
    FailedUnfit(cfg, s);
    CollectedReports(cfg, s);
    DataIsUnreceived(cfg, s);
    CompletesSends(cfg);
    forall t: Thread ensures Done(cfg, s, t) <==> Completes(cfg, t) {
      if Done(cfg, s, t) {
        DoneCompletes(cfg, s, t);
      }
      CollectorCompletes(cfg, t);
    }
  }

  lemma CompletesSends(cfg: Config)
    ensures Completes(cfg, ConsumerThread) ==> MessagesFit(cfg)
  {
  }

  /** As long as a thread for which everything fits is not done, some thread can act, also
      if others have failed. */
  lemma NoDeadlock(cfg: Config, s: State, t: Thread) returns (step: Step)
    requires Core(cfg, s) && RingCapacities(cfg) && Completes(cfg, t) && !Done(cfg, s, t)
    ensures Enabled(cfg, s, step)
  {
    hide Core, Completes, Enabled;
    var some := SomeStep(cfg, s);
    if some == None {
      RestOutcome(cfg, s);
    }
    step := some.value;
  }

  // ----- runs -----

  lemma WorkBound(cfg: Config, s: State)
    requires Core(cfg, s)
    ensures Work(s) + Failures(s.failed) <= 8 * |cfg.messages|
    ensures Work(s) == 8 * |cfg.messages| <==> Finished(cfg, s)
  {
    hide Rising, Paired, MessageFits;
  }

  /** Along a run the invariant holds and every step is one unit of work or one failure. */
  lemma {:induction false} RunKeepsCore(cfg: Config, s: State, steps: seq<Step>)
    requires Core(cfg, s) && IsRun(cfg, s, steps)
    ensures var u := Final(cfg, s, steps);
            Core(cfg, u) && Work(u) + Failures(u.failed) == Work(s) + Failures(s.failed) + |steps|
    decreases |steps|
  {
    hide Core, Enabled, Apply, SendAccepted;
    if steps != [] {
      StepKeepsCore(cfg, s, steps[0]);
      RunKeepsCore(cfg, Apply(cfg, s, steps[0]), steps[1..]);
    }
  }

  /** The messages sent before the first one that does not fit. */
  lemma SendableIs(cfg: Config, messages: seq<Message>, n: nat)
    requires n <= |messages| && forall i :: 0 <= i < n ==> MessageFits(cfg.dataCapacity, messages[i])
    requires n < |messages| ==> !MessageFits(cfg.dataCapacity, messages[n])
    ensures Sendable(cfg, messages) == n
  {
    hide MessageFits;
  }

  lemma SentFits(cfg: Config, s: State)
    requires Core(cfg, s)
    ensures s.producer.sent <= |cfg.messages|
    ensures forall i :: 0 <= i < s.producer.sent ==> MessageFits(cfg.dataCapacity, cfg.messages[i])
    ensures |s.consumer.received| <= |cfg.messages| && s.consumer.received == cfg.messages[..|s.consumer.received|]
  {
    hide Rising, Paired, ReportsOk, Holds, FailuresOk, MessageFits;
  }

  /** A run has at most 8 steps per message. When it can go no further, exactly those
      threads are done for which everything fits; the Producer or the Consumer has failed
      exactly where what it had to send does not fit; and the Consumer has received exactly
      the messages before the first one that does not fit. */
  lemma RunsEnd(cfg: Config, s: State, steps: seq<Step>)
    requires Init(cfg, s) && IsRun(cfg, s, steps) && RingCapacities(cfg)
    ensures |steps| <= 8 * |cfg.messages|
    ensures var u := Final(cfg, s, steps);
            Stuck(cfg, u) ==>
              && (forall t: Thread :: Done(cfg, u, t) <==> Completes(cfg, t))
              && (ProducerThread in u.failed <==> !Completes(cfg, ProducerThread))
              && (ConsumerThread in u.failed <==> MessagesFit(cfg) && !Completes(cfg, ConsumerThread))
              && u.consumer.received == cfg.messages[..Sendable(cfg, cfg.messages)]
  {
    hide Core, Completes, MessagesFit, Done, IsRun, Final;
    InitCore(cfg, s);
    RunKeepsCore(cfg, s, steps);
    var u := Final(cfg, s, steps);
    WorkBound(cfg, u);
    if Stuck(cfg, u) {
      StuckOutcome(cfg, u);
    }
  }

  /** The same for any state of a run. */
  lemma StuckOutcome(cfg: Config, u: State)
    requires Core(cfg, u) && RingCapacities(cfg) && Stuck(cfg, u)
    ensures forall t: Thread :: Done(cfg, u, t) <==> Completes(cfg, t)
    ensures ProducerThread in u.failed <==> !Completes(cfg, ProducerThread)
    ensures ConsumerThread in u.failed <==> MessagesFit(cfg) && !Completes(cfg, ConsumerThread)
    ensures u.consumer.received == cfg.messages[..Sendable(cfg, cfg.messages)]
  {
    hide Core, Completes, MessagesFit, Done, MessageFits, Sendable, Enabled;
    var step := SomeStep(cfg, u);
    RestOutcome(cfg, u);
    SentFits(cfg, u);
    SendableIs(cfg, cfg.messages, u.producer.sent);
  }

  // ----- pairing -----

  /** At the end the Consumer has received the Producer's messages in order, and the
      Analyzer holds exactly the Producer's and the Consumer's ticks in message order. */
  lemma FinalTicks(cfg: Config, s: State, steps: seq<Step>)
    requires Init(cfg, s) && IsRun(cfg, s, steps) && Finished(cfg, Final(cfg, s, steps))
    ensures var u := Final(cfg, s, steps);
            && u.consumer.received == cfg.messages
            && u.fromProducer.ticks == u.producer.ticks && u.fromConsumer.ticks == u.consumer.ticks
            && |u.producer.ticks| == |u.consumer.ticks| == |cfg.messages|
            && OneClock(u.fromProducer.ticks, u.fromConsumer.ticks)
  {
    hide Core, IsRun, Final;
    InitCore(cfg, s);
    RunKeepsCore(cfg, s, steps);
    FinishedTicks(cfg, Final(cfg, s, steps));
  }

  lemma FinishedTicks(cfg: Config, u: State)
    requires Core(cfg, u) && Finished(cfg, u)
    ensures u.consumer.received == cfg.messages
    ensures u.fromProducer.ticks == u.producer.ticks && u.fromConsumer.ticks == u.consumer.ticks
    ensures |u.producer.ticks| == |u.consumer.ticks| == |cfg.messages|
    ensures OneClock(u.fromProducer.ticks, u.fromConsumer.ticks)
  {
    hide Holds, MessageFits, FailuresOk, Sorted;
    assert u.consumer.received == cfg.messages[..|cfg.messages|] == cfg.messages;
    assert u.producer.ticks[..|u.producer.ticks|] == u.producer.ticks;
    assert u.consumer.ticks[..|u.consumer.ticks|] == u.consumer.ticks;
  }

  lemma TickListResults(producer: seq<int>, consumer: seq<int>, i: nat, alpha: real)
    requires OneClock(producer, consumer) && i < |producer| && InUnit(alpha)
    ensures var shippings := Shippings(producer, consumer);
            var total := consumer[|producer| - 1] - producer[0];
            && |shippings| == |producer| == |consumer|
            && TotalTime(producer, consumer) == Some(total)
            && shippings[i] == consumer[i] - producer[i]
            && 0 <= shippings[i] <= total
            && 0 <= Quantile(shippings, alpha) <= total
  {
    hide Quantile, Sorted;
    ShippingBounds(producer, consumer, i);
    QuantileBounds(producer, consumer, alpha);
  }

  /** So shipping `i` of a finished run is the receive tick minus the send tick of message
      `i`, non-negative, and at most the total time; so is every quantile reported. */
  lemma FinalShippings(cfg: Config, s: State, steps: seq<Step>, i: nat, alpha: real)
    requires Init(cfg, s) && IsRun(cfg, s, steps) && Finished(cfg, Final(cfg, s, steps))
    requires i < |cfg.messages| && InUnit(alpha)
    ensures var u := Final(cfg, s, steps);
            && |u.producer.ticks| == |u.consumer.ticks| == |u.fromProducer.ticks| == |u.fromConsumer.ticks| == |cfg.messages|
            && var shippings := Shippings(u.fromProducer.ticks, u.fromConsumer.ticks);
               var total := u.fromConsumer.ticks[|cfg.messages| - 1] - u.fromProducer.ticks[0];
               && |shippings| == |cfg.messages|
               && TotalTime(u.fromProducer.ticks, u.fromConsumer.ticks) == Some(total)
               && shippings[i] == u.consumer.ticks[i] - u.producer.ticks[i]
               && 0 <= shippings[i] <= total
               && 0 <= Quantile(shippings, alpha) <= total
  {
    hide IsRun, Final, Finished, Init, OneClock, Quantile, Shippings, TotalTime;
    FinalTicks(cfg, s, steps);
    TickListResults(Final(cfg, s, steps).fromProducer.ticks, Final(cfg, s, steps).fromConsumer.ticks, i, alpha);
  }

  /** A run of no messages is finished before its first step, and no other run ends with an
      empty list of ticks, from which the Analyzer would read a first and a last one. */
  lemma EmptyTickLists(cfg: Config, s: State, steps: seq<Step>)
    requires Init(cfg, s) && IsRun(cfg, s, steps) && Finished(cfg, Final(cfg, s, steps))
    ensures var u := Final(cfg, s, steps);
            && (u.fromProducer.ticks == [] <==> cfg.messages == [])
            && (u.fromConsumer.ticks == [] <==> cfg.messages == [])
    ensures cfg.messages == [] ==> steps == [] && Finished(cfg, s)
  {
    hide Core, IsRun, Final, MessagesFit;
    FinalTicks(cfg, s, steps);
    InitCore(cfg, s);
    RunKeepsCore(cfg, s, steps);
    WorkBound(cfg, Final(cfg, s, steps));
  }
}
