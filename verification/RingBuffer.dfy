/** The ring as an object with two indices and a byte array, run by one caller at a time.
    `Push` and `Pop` perform their stores and loads on the array; each of them is a run of
    the ring machine, whose state the object carries along as a ghost. Where the source
    spins until the other side publishes, the methods return `Waits` with nothing changed. */
module RingBuffer {
  import opened Words
  import opened Bytes
  import opened RingIndex
  import opened Fifo
  import opened RingMachine
  import opened RingSafety
  import opened RingTheorems

  datatype PushOutcome = PushThrows | PushWaits | Pushed

  datatype PopOutcome = PopThrows | PopWaits | Popped(size: nat)

  /** The offsets below `n`. */
  ghost function UpTo(n: nat): set<nat> { if n == 0 then {} else UpTo(n - 1) + {n - 1} }

  lemma {:induction false} UpToMembers(n: nat)
    ensures forall k: nat :: k < n <==> k in UpTo(n)
  {
    if n > 0 {
      UpToMembers(n - 1);
    }
  }

  // ----- what one caller's operation does to the machine -----

  /** The machine after a `Push` of an admitted payload has passed its waiting loop. */
  ghost function Begun(s: State, payload: Message): State
    requires s.produced != []
  {
    s.(prodSeen := |s.popped|,
       producer := PWriting(payload, ProcessMessage(Last(s.produced), Size32(payload), s.capacity), {}))
  }

  lemma PushCalls(s: State, payload: Message)
    requires Reachable(s) && s.producer.PIdle? && HEADER + |payload| <= s.capacity
    ensures Reachable(s.(producer := PWaiting(payload)))
  {
    hide Reachable, Encodes, PendingStored, ConsumerOk, Delivered, Start, Inv;
    ReachableInv(s);
    ReachableStep(s, PushCall(payload));
  }

  lemma PushObserves(s: State)
    requires Reachable(s) && s.producer.PWaiting? && |s.popped| <= |s.pushed|
    requires Admits(s.capacity, Pending(s), s.producer.payload)
    ensures s.produced != [] && Reachable(Begun(s, s.producer.payload))
  {
    hide Reachable, Encodes, PendingStored, ConsumerOk, Delivered, Start, FreeSize, ProcessMessage;
    ReachableInv(s);
    WaitsLikeFifo(s);
    ReachableStep(s, PushObserve(|s.consumed| - 1));
  }

  lemma PushBegins(s: State, payload: Message)
    requires Reachable(s) && s.producer.PIdle? && |s.popped| <= |s.pushed| && s.produced != []
    requires HEADER + |payload| <= s.capacity && Admits(s.capacity, Pending(s), payload)
    ensures Reachable(Begun(s, payload))
    ensures var split := ProcessMessage(Last(s.produced), Size32(payload), s.capacity);
            split.fit + split.overflow == |payload|
  {
    hide Reachable, ProcessMessage;
    PushCalls(s, payload);
    PushObserves(s.(producer := PWaiting(payload)));
    SplitParts(Last(s.produced), Size32(payload), s.capacity);
  }

  lemma SplitParts(index: Index, size: Word, capacity: Word)
    ensures var split := ProcessMessage(index, size, capacity); split.fit + split.overflow == size
  {
  }

  lemma StoreSteps(s: State, k: nat, payload: Message, split: Processed) returns (t: State)
    requires Reachable(s) && s.producer == PWriting(payload, split, UpTo(k)) && k < HEADER + |payload|
    ensures Reachable(t) && s.produced != []
    ensures var a := RecordAddress(Last(s.produced), split.fit, k);
            && a < |s.memory|
            && t == s.(memory := s.memory[a := Record(payload)[k]], stamp := t.stamp,
                       producer := PWriting(payload, split, UpTo(k + 1)))
  {
    hide Reachable, Record, RecordAddress;
    StoreInMemory(s, k);
    UpToMembers(k);
    ReachableStep(s, PushStore(k));
    t := Apply(s, PushStore(k));
  }

  lemma PushEnds(s: State, payload: Message, split: Processed) returns (t: State)
    requires Reachable(s) && s.producer == PWriting(payload, split, UpTo(HEADER + |payload|))
    requires |s.popped| <= |s.pushed|
    ensures Reachable(t) && |t.popped| <= |t.pushed| && Pending(t) == Pending(s) + [payload]
    ensures t == s.(produced := s.produced + [split.index], pushed := s.pushed + [payload], producer := PIdle)
  {
    hide Reachable, Encodes, PendingStored, ConsumerOk, ProducerOk, Start, UpTo;
    ReachableInv(s);
    UpToMembers(HEADER + |payload|);
    ReachableStep(s, PushPublish);
    PublishAppends(s);
    t := Apply(s, PushPublish);
  }

  lemma PopCalls(s: State, buffer: seq<Byte>)
    requires Reachable(s) && s.consumer.CIdle?
    ensures Reachable(s.(consumer := CWaiting(buffer)))
  {
    hide Reachable, Encodes, PendingStored, ProducerOk, Delivered, Start;
    ReachableInv(s);
    ReachableStep(s, PopCall(buffer));
  }

  /** The machine after a `Pop` has passed its waiting loop. */
  lemma PopNotices(s: State, buffer: seq<Byte>) returns (t: State)
    requires Reachable(s) && s.consumer.CIdle? && |s.popped| < |s.pushed|
    ensures Reachable(t) && t == s.(consSeen := |s.pushed|, consumer := CReady(buffer))
  {
    hide Reachable, Encodes, PendingStored, ProducerOk, ConsumerOk, Start;
    PopCalls(s, buffer);
    var u := s.(consumer := CWaiting(buffer));
    ReachableInv(u);
    WaitsLikeFifo(u);
    ReachableStep(u, PopObserve(|u.produced| - 1));
    t := Apply(u, PopObserve(|u.produced| - 1));
  }

  /** The header word of the oldest message, and the machine after it has been read. */
  lemma HeaderSteps(s: State) returns (t: State)
    requires Reachable(s) && s.consumer.CReady? && s.consumed != []
    ensures Reachable(t) && |s.popped| < |s.pushed|
    ensures var v, buffer, size := Last(s.consumed).value, s.consumer.buffer, |s.pushed[|s.popped|]|;
            && v + HEADER <= |s.memory| && HeaderAt(s.memory, v) == size
            && t == s.(consumer := if |buffer| < size then CIdle
                                   else CCopying(buffer, size, ProcessMessage(Last(s.consumed), size, s.capacity), {}))
  {
    hide Reachable, Encodes, ProducerOk, Delivered, Start, Offset, ProcessMessage, HeaderValue;
    ReachableInv(s);
    LastIndices(s);
    CurrentRecord(s, 0);
    HeaderInMemory(s.memory, s.stamp, s.pushed, |s.popped|);
    var v := Last(s.consumed).value;
    var header := s.memory[v..v + HEADER];
    ReachableStep(s, PopHeader(header));
    t := Apply(s, PopHeader(header));
  }

  lemma LoadSteps(s: State, k: nat, buffer: seq<Byte>, size: Word, split: Processed) returns (t: State)
    requires Reachable(s) && s.consumer == CCopying(buffer, size, split, UpTo(k)) && k < size
    ensures Reachable(t) && s.consumed != []
    ensures var a := RecordAddress(Last(s.consumed), split.fit, HEADER + k);
            && a < |s.memory| && k < |buffer|
            && t == s.(consumer := CCopying(buffer[k := s.memory[a]], size, split, UpTo(k + 1)))
  {
    hide Reachable, Encodes, PendingStored, ProducerOk, Delivered, Start;
    ReachableInv(s);
    UpToMembers(k);
    LoadsAreVisible(s, k);
    var byte := s.memory[LoadAddress(s, k)];
    ReachableStep(s, PopLoad(k, byte));
    t := Apply(s, PopLoad(k, byte));
  }

  lemma PopEnds(s: State, buffer: seq<Byte>, size: Word, split: Processed) returns (t: State)
    requires Reachable(s) && s.consumer == CCopying(buffer, size, split, UpTo(size))
    ensures size <= |buffer| && Reachable(t) && |s.popped| < |s.pushed| && |t.popped| <= |t.pushed|
    ensures Pending(s) == [buffer[..size]] + Pending(t)
    ensures t == s.(consumed := s.consumed + [split.index], popped := s.popped + [buffer[..size]],
                    delivered := s.delivered + [buffer], consumer := CIdle)
  {
    hide Reachable, Encodes, PendingStored, ProducerOk, Start, UpTo;
    ReachableInv(s);
    UpToMembers(size);
    ReachableStep(s, PopPublish);
    PublishRemoves(s);
    t := Apply(s, PopPublish);
    assert buffer[..size] == s.pushed[|s.popped|];
  }

  lemma EmptyTest(s: State)
    requires Reachable(s) && s.produced != [] && s.consumed != [] && |s.popped| <= |s.pushed|
    ensures Last(s.consumed) == Last(s.produced) <==> Pending(s) == []
  {
    hide Reachable, Encodes, PendingStored, ProducerOk, ConsumerOk, Start;
    ReachableInv(s);
    ObservedNonEmpty(s, |s.pushed|);
  }

  /** The record bytes from `first` on lie one after another from address `a`. */
  ghost predicate Contiguous(index: Index, fit: nat, first: nat, n: nat, a: nat) {
    forall k :: first <= k < first + n ==> RecordAddress(index, fit, k) == a + (k - first)
  }

  class SPSCRingBuffer {
    const capacity: Word
    const ringBuffer: array<Byte>
    var producerIndex: Index
    var consumerIndex: Index
    ghost var machine: State

    /** The machine is in a reachable state that agrees with the fields. */
    ghost predicate Tied()
      reads this, ringBuffer
    {
      && Reachable(machine)
      && machine.produced != [] && machine.consumed != [] && |machine.popped| <= |machine.pushed|
      && machine.capacity == capacity && machine.memory == ringBuffer[..]
      && Last(machine.produced) == producerIndex && Last(machine.consumed) == consumerIndex
    }

    ghost predicate Valid()
      reads this, ringBuffer
    {
      Tied() && machine.producer.PIdle? && machine.consumer.CIdle?
    }

    /** The messages in the ring, oldest first. */
    ghost function Contents(): seq<Message>
      requires Tied()
      reads this, ringBuffer
    {
      Pending(machine)
    }

    constructor (capacity: Word)
      requires ValidCapacity(capacity)
      ensures Valid() && fresh(ringBuffer) && this.capacity == capacity && Contents() == []
    {
      this.capacity := capacity;
      ringBuffer := new Byte[capacity];
      producerIndex := Index(0, 0);
      consumerIndex := Index(0, 0);
      new;
      machine := State(capacity, ringBuffer[..], seq(capacity, _ => 0), [Index(0, 0)], [Index(0, 0)],
                       0, 0, PIdle, CIdle, [], [], []);
      ReachableInit(machine);
    }

    /** The constructor throws unless the capacity is its own alignment. */
    static method Create(capacity: Word) returns (ring: SPSCRingBuffer?)
      ensures ring == null <==> capacity % 4 != 0
      ensures ring != null ==> fresh(ring) && fresh(ring.ringBuffer) && ring.Valid() && ring.capacity == capacity && ring.Contents() == []
    {
      AlignCapacityMeaning(capacity);
      if AlignCapacity(capacity) != AlignedTo(capacity) {
        return null;
      }
      ring := new SPSCRingBuffer(capacity);
    }

    // ----- Push -----

    /** A `Push` of `payload` is past its waiting loop and has stored its first `n` bytes. */
    ghost predicate Writing(payload: Message, split: Processed, n: nat)
      reads this, ringBuffer
    {
      Tied() && machine.producer == PWriting(payload, split, UpTo(n))
    }

    method StoreByte(a: nat, b: Byte, ghost k: nat, ghost payload: Message, ghost split: Processed)
      requires Writing(payload, split, k) && k < HEADER + |payload|
      requires a == RecordAddress(producerIndex, split.fit, k) && b == Record(payload)[k]
      modifies `machine, ringBuffer
      ensures Writing(payload, split, k + 1)
      ensures machine.(memory := [], stamp := [], producer := PIdle) ==
              old(machine).(memory := [], stamp := [], producer := PIdle)
    {
      hide Reachable, UpTo, Record, RecordAddress;
      ghost var next := StoreSteps(machine, k, payload, split);
      ringBuffer[a] := b;
      machine := next;
    }

    method Push(payload: Message) returns (outcome: PushOutcome)
      requires Valid() && |payload| < SIZE_LIMIT
      modifies `producerIndex, `machine, ringBuffer
      ensures Valid()
      ensures outcome == PushThrows <==> capacity < HEADER + |payload|
      ensures outcome == Pushed <==> HEADER + |payload| <= capacity && Admits(capacity, old(Contents()), payload)
      ensures outcome == Pushed ==> Contents() == old(Contents()) + [payload]
      ensures outcome != Pushed ==> Contents() == old(Contents()) && ringBuffer[..] == old(ringBuffer[..]) && producerIndex == old(producerIndex)
      ensures machine.popped == old(machine.popped)
    {
      hide Reachable, FreeSize, ProcessMessage, Total, Inv;
      if RejectsPush(|payload|, capacity) {
        return PushThrows;
      }
      Conservation(machine, payload);
      var free := FreeSize(producerIndex, consumerIndex, capacity);
      if free < HEADER + |payload| {
        return PushWaits;
      }
      PushBegins(machine, payload);
      machine := Begun(machine, payload);
      var split := ProcessMessage(producerIndex, Size32(payload), capacity);
      CopyIn(payload, split);
      ghost var next := PushEnds(machine, payload, split);
      producerIndex := split.index;
      machine := next;
      outcome := Pushed;
    }

    /** One copy into the ring: `bytes` become the record bytes from `first` on. */
    method StoreRun(a: nat, bytes: seq<Byte>, ghost first: nat, ghost payload: Message, ghost split: Processed)
      requires Writing(payload, split, first) && first + |bytes| <= HEADER + |payload|
      requires bytes == Record(payload)[first..first + |bytes|]
      requires Contiguous(producerIndex, split.fit, first, |bytes|, a)
      modifies `machine, ringBuffer
      ensures Writing(payload, split, first + |bytes|)
      ensures machine.(memory := [], stamp := [], producer := PIdle) ==
              old(machine).(memory := [], stamp := [], producer := PIdle)
    {
      hide Reachable, UpTo, Record, RecordAddress;
      for k := 0 to |bytes|
        invariant Writing(payload, split, first + k)
        invariant machine.(memory := [], stamp := [], producer := PIdle) ==
                  old(machine).(memory := [], stamp := [], producer := PIdle)
      {
        assert RecordAddress(producerIndex, split.fit, first + k) == a + k;
        StoreByte(a + k, bytes[k], first + k, payload, split);
      }
    }

    /** The header and the two copies of `Push`. */
    method CopyIn(payload: Message, split: Processed)
      requires Writing(payload, split, 0) && |payload| < WORD_LIMIT && split.fit + split.overflow == |payload|
      modifies `machine, ringBuffer
      ensures Writing(payload, split, HEADER + |payload|)
      ensures machine.(memory := [], stamp := [], producer := PIdle) ==
              old(machine).(memory := [], stamp := [], producer := PIdle)
    {
      hide Reachable, UpTo, HeaderBytes;
      var header := HeaderBytes(Size32(payload));
      assert header == Record(payload)[0..HEADER];
      assert payload[..split.fit] == Record(payload)[HEADER..HEADER + split.fit];
      assert payload[split.fit..] == Record(payload)[HEADER + split.fit..HEADER + |payload|];
      StoreRun(producerIndex.value, header, 0, payload, split);
      StoreRun(producerIndex.value + HEADER, payload[..split.fit], HEADER, payload, split);
      StoreRun(0, payload[split.fit..], HEADER + split.fit, payload, split);
    }

    // ----- Pop -----

    /** A `Pop` into `buffer` has read the header and copied its first `n` payload bytes. */
    ghost predicate Copying(buffer: array<Byte>, size: Word, split: Processed, n: nat)
      reads this, ringBuffer, buffer
    {
      Tied() && machine.consumer == CCopying(buffer[..], size, split, UpTo(n))
    }

    method LoadByte(buffer: array<Byte>, a: nat, k: nat, ghost size: Word, ghost split: Processed)
      requires buffer != ringBuffer && Copying(buffer, size, split, k) && k < size
      requires a == RecordAddress(consumerIndex, split.fit, HEADER + k)
      modifies `machine, buffer
      ensures Copying(buffer, size, split, k + 1)
      ensures forall i :: 0 <= i < buffer.Length && i != k ==> buffer[i] == old(buffer[i])
      ensures machine.(consumer := CIdle) == old(machine).(consumer := CIdle)
    {
      hide Reachable, UpTo, RecordAddress;
      ghost var b := buffer[..];
      ghost var next := LoadSteps(machine, k, b, size, split);
      buffer[k] := ringBuffer[a];
      machine := next;
      assert buffer[..] == b[k := ringBuffer[a]];
    }

    /** One copy out of the ring: `n` payload bytes from `first` on. */
    method LoadRun(buffer: array<Byte>, a: nat, first: nat, n: nat, ghost size: Word, ghost split: Processed)
      requires buffer != ringBuffer && Copying(buffer, size, split, first) && first + n <= size
      requires Contiguous(consumerIndex, split.fit, HEADER + first, n, a)
      modifies `machine, buffer
      ensures Copying(buffer, size, split, first + n)
      ensures forall i :: size <= i < buffer.Length ==> buffer[i] == old(buffer[i])
      ensures machine.(consumer := CIdle) == old(machine).(consumer := CIdle)
    {
      hide Reachable, UpTo, RecordAddress;
      for k := 0 to n
        invariant Copying(buffer, size, split, first + k)
        invariant forall i :: size <= i < buffer.Length ==> buffer[i] == old(buffer[i])
        invariant machine.(consumer := CIdle) == old(machine).(consumer := CIdle)
      {
        assert RecordAddress(consumerIndex, split.fit, HEADER + (first + k)) == a + k;
        LoadByte(buffer, a + k, first + k, size, split);
      }
    }

    /** The two copies of `Pop`. */
    method CopyOut(buffer: array<Byte>, size: Word, split: Processed)
      requires buffer != ringBuffer && Copying(buffer, size, split, 0) && split.fit + split.overflow == size
      modifies `machine, buffer
      ensures Copying(buffer, size, split, size)
      ensures forall i :: size <= i < buffer.Length ==> buffer[i] == old(buffer[i])
      ensures machine.(consumer := CIdle) == old(machine).(consumer := CIdle)
    {
      hide Reachable, UpTo;
      LoadRun(buffer, consumerIndex.value + HEADER, 0, split.fit, size, split);
      LoadRun(buffer, 0, split.fit, split.overflow, size, split);
    }

    method Pop(buffer: array<Byte>) returns (outcome: PopOutcome)
      requires Valid() && buffer != ringBuffer
      modifies `consumerIndex, `machine, buffer
      ensures Valid()
      ensures outcome == PopWaits <==> old(Contents()) == []
      ensures outcome == PopThrows <==> old(Contents()) != [] && buffer.Length < |old(Contents())[0]|
      ensures outcome.Popped? ==>
                && outcome.size <= buffer.Length
                && old(Contents()) == [buffer[..outcome.size]] + Contents()
                && buffer[outcome.size..] == old(buffer[..])[outcome.size..]
      ensures !outcome.Popped? ==> Contents() == old(Contents()) && buffer[..] == old(buffer[..]) && consumerIndex == old(consumerIndex)
      ensures ringBuffer[..] == old(ringBuffer[..]) && machine.pushed == old(machine.pushed)
    {
      hide Reachable, ProcessMessage, HeaderAt;
      EmptyTest(machine);
      if consumerIndex == producerIndex {
        return PopWaits;
      }
      ghost var before := machine;
      ghost var noticed := PopNotices(machine, buffer[..]);
      machine := noticed;
      ghost var read := HeaderSteps(machine);
      var size := HeaderAt(ringBuffer[..], consumerIndex.value);
      machine := read;
      if buffer.Length < size {
        return PopThrows;
      }
      var split := ProcessMessage(consumerIndex, size, capacity);
      SplitParts(consumerIndex, size, capacity);
      CopyOut(buffer, size, split);
      ghost var next := PopEnds(machine, buffer[..], size, split);
      consumerIndex := split.index;
      machine := next;
      outcome := Popped(size);
    }
  }
}
