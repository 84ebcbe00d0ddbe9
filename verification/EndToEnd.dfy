/** From a value on the sending side to the same value on the receiving side: packing into
    the buffer, the ring, and unpacking from a buffer that still holds older bytes. */
module EndToEnd {
  import opened Wrappers
  import opened Bytes
  import opened RingIndex
  import opened Fifo
  import opened RingMachine
  import opened RingTheorems
  import opened RingBuffer
  import opened ByteBuffer
  import opened PackerSpec
  import opened Packers
  import Protocol

  /** In every interleaving: if the pushed payloads are the encodings of a sequence of
      values, then every buffer handed back by `Pop`, leftover bytes included, unpacks
      from its start to the value of the same rank. */
  lemma EveryDeliveryUnpacks(s: State, pk: Packer, schema: Schema, values: seq<Value>)
    requires Reachable(s) && |values| == |s.pushed|
    requires forall i :: 0 <= i < |values| ==> HasSchema(values[i], schema) && s.pushed[i] == Encode(pk, values[i])
    ensures |s.delivered| <= |values|
    ensures forall i :: 0 <= i < |s.delivered| ==>
              Parse(pk, schema, s.delivered[i], 0) == Some((values[i], |s.pushed[i]|))
  {
    PoppedIsPrefixOfPushed(s);
    forall i | 0 <= i < |s.delivered|
      ensures Parse(pk, schema, s.delivered[i], 0) == Some((values[i], |s.pushed[i]|))
    {
      assert s.popped[i] == s.pushed[i];
      assert LiesAt(s.pushed[i], s.delivered[i], 0);
      ParseOfEncode(pk, values[i], schema, s.delivered[i], 0);
    }
  }

  /** A `Pop` into a message buffer never rejects what was packed in a message buffer. */
  lemma PopNeverRejects(s: State, header: seq<Byte>)
    requires Reachable(s) && Enabled(s, PopHeader(header))
    requires |s.consumer.buffer| == BUFFER_CAPACITY
    requires forall m :: m in s.pushed ==> |m| <= BUFFER_CAPACITY
    ensures Apply(s, PopHeader(header)).consumer.CCopying?
  {
    PopRejection(s, header);
    assert s.pushed[|s.popped|] in s.pushed;
  }

  /** The channels of the measurement protocol are this ring. A payload that went into a
      message buffer is accepted by a channel exactly if `Push` does not throw for it; and a
      sender that observes the latest index proceeds exactly where the channel lets it. */
  lemma ChannelIsRing(s: State, payload: Message)
    requires Reachable(s) && |payload| <= BUFFER_CAPACITY
    ensures |s.popped| <= |s.pushed|
    ensures s.producer.PIdle? ==>
              && Enabled(s, PushCall(payload))
              && (Protocol.Accepts(s.capacity, payload) <==>
                    Apply(s, PushCall(payload)) == s.(producer := PWaiting(payload)))
    ensures s.producer == PWaiting(payload) ==>
              && s.consumed != []
              && var latest := PushObserve(|s.consumed| - 1);
                 && Enabled(s, latest)
                 && Protocol.Accepts(s.capacity, payload)
                 && (Apply(s, latest).producer.PWriting? <==> Protocol.MaySend(s.capacity, Pending(s), payload))
  {
    hide Reachable, Admits;
    EnabledExactly(s, PushCall(payload));
    if s.producer.PIdle? {
      PushRejection(s, payload);
    }
    if s.producer == PWaiting(payload) {
      WaitsLikeFifo(s);
      WaitingFits(s);
    }
  }

  lemma WaitingFits(s: State)
    requires Reachable(s) && s.producer.PWaiting?
    ensures HEADER + |s.producer.payload| <= s.capacity
  {
    hide Reachable, Encodes, PendingStored, ConsumerOk, Delivered, Start;
    ReachableInv(s);
  }

  datatype SendOutcome = PackThrows | Push(outcome: PushOutcome)

  /** Reset, pack, and send the used bytes through the ring. */
  method Send(ring: SPSCRingBuffer, buffer: Buffer, pk: Packer, v: Value) returns (r: SendOutcome)
    requires ring.Valid() && buffer.Valid() && ring.ringBuffer != buffer.data
    modifies ring`producerIndex, ring`machine, ring.ringBuffer, buffer, buffer.data
    ensures ring.Valid() && buffer.Valid()
    ensures r == PackThrows <==> BUFFER_CAPACITY < |Encode(pk, v)|
    ensures r == Push(PushThrows) <==>
              |Encode(pk, v)| <= BUFFER_CAPACITY && ring.capacity < HEADER + |Encode(pk, v)|
    ensures r == Push(PushWaits) <==>
              && |Encode(pk, v)| <= BUFFER_CAPACITY && HEADER + |Encode(pk, v)| <= ring.capacity
              && !Admits(ring.capacity, old(ring.Contents()), Encode(pk, v))
    ensures r == Push(Pushed) ==> ring.Contents() == old(ring.Contents()) + [Encode(pk, v)]
    ensures r != Push(Pushed) ==> ring.Contents() == old(ring.Contents())
  {
    buffer.Reset();
    var ok := Pack(pk, buffer, v);
    if !ok {
      return PackThrows;
    }
    var payload := buffer.data[..buffer.writePtr];
    assert payload == Encode(pk, v);
    var outcome := ring.Push(payload);
    r := Push(outcome);
  }

  /** Reset, receive into the buffer, and unpack. Receiving does not move the write cursor
      and leaves older bytes behind the message. */
  method Receive(ring: SPSCRingBuffer, buffer: Buffer, pk: Packer, schema: Schema)
    returns (outcome: PopOutcome, r: Option<Value>)
    requires ring.Valid() && buffer.Valid() && ring.ringBuffer != buffer.data
    modifies ring`consumerIndex, ring`machine, buffer, buffer.data
    ensures ring.Valid() && buffer.Valid() && buffer.writePtr == 0
    ensures outcome == PopWaits <==> old(ring.Contents()) == []
    ensures outcome == PopThrows <==> old(ring.Contents()) != [] && BUFFER_CAPACITY < |old(ring.Contents())[0]|
    ensures outcome.Popped? ==> old(ring.Contents()) != [] && ring.Contents() == old(ring.Contents())[1..]
    ensures outcome.Popped? ==>
              forall v :: HasSchema(v, schema) && old(ring.Contents())[0] == Encode(pk, v) ==> r == Some(v)
    ensures r.Some? ==> outcome.Popped?
    ensures !outcome.Popped? ==> ring.Contents() == old(ring.Contents())
  {
    buffer.Reset();
    r := None;
    outcome := ring.Pop(buffer.data);
    if outcome.Popped? {
      ghost var size := outcome.size;
      assert buffer.data[..size] == old(ring.Contents())[0];
      assert buffer.data[..][0..size] == buffer.data[..size];
      r := Unpack(pk, buffer, schema);
    }
  }
}
