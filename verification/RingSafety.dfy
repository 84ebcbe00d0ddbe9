/** Every step of the ring machine keeps the invariant, hence every run does. */
module RingSafety {
  import opened Words
  import opened Bytes
  import opened RingIndex
  import opened Fifo
  import opened RingMachine
  import Sequences

  // ----- positions of records -----

  lemma {:induction false} StartMonotone(messages: seq<Message>, i: nat, j: nat)
    requires i <= j <= |messages|
    ensures Start(messages, i) <= Start(messages, j)
    ensures i < j ==> Start(messages, i) + RecordSize(|messages[i]|) <= Start(messages, j)
    decreases j - i
  {
    if i < j {
      StartMonotone(messages, i + 1, j);
    }
  }

  lemma {:induction false} StartAligned(messages: seq<Message>, i: nat)
    requires i <= |messages|
    ensures Start(messages, i) % 4 == 0
  {
    if i > 0 {
      StartAligned(messages, i - 1);
      Up4Aligned(|messages[i - 1]|);
    }
  }

  lemma {:induction false} StartAppend(messages: seq<Message>, m: Message, i: nat)
    requires i <= |messages|
    ensures Start(messages + [m], i) == Start(messages, i)
  {
    if i > 0 {
      StartAppend(messages, m, i - 1);
    }
  }

  lemma {:induction false} EncodesAt(capacity: Word, history: seq<Index>, pushed: seq<Message>, count: nat, i: nat)
    requires Encodes(capacity, history, pushed, count) && i <= count
    ensures history[i] == IndexOf(capacity, Start(pushed, i))
  {
    if i < count {
      EncodesAt(capacity, history, pushed, count - 1, i);
    }
  }

  lemma {:induction false} EncodesAppend(capacity: Word, history: seq<Index>, pushed: seq<Message>, count: nat, m: Message)
    requires Encodes(capacity, history, pushed, count)
    ensures Encodes(capacity, history, pushed + [m], count)
  {
    StartAppend(pushed, m, count);
    if count > 0 {
      EncodesAppend(capacity, history, pushed, count - 1, m);
    }
  }

  lemma {:induction false} EncodesLonger(capacity: Word, history: seq<Index>, pushed: seq<Message>, count: nat, index: Index)
    requires Encodes(capacity, history, pushed, count)
    ensures Encodes(capacity, history + [index], pushed, count)
  {
    if count > 0 {
      EncodesLonger(capacity, history, pushed, count - 1, index);
    }
  }

  lemma EncodesExtend(capacity: Word, history: seq<Index>, pushed: seq<Message>, count: nat, index: Index)
    requires Encodes(capacity, history, pushed, count) && |history| == count + 1 && count < |pushed|
    requires index == IndexOf(capacity, Start(pushed, count + 1))
    ensures Encodes(capacity, history + [index], pushed, count + 1)
  {
    EncodesLonger(capacity, history, pushed, count, index);
  }

  /** The published indices stand for the positions after the last record pushed and popped. */
  lemma LastIndices(s: State)
    requires Inv(s)
    ensures s.produced != [] && s.consumed != []
    ensures Last(s.produced) == IndexOf(s.capacity, WritePos(s))
    ensures Last(s.consumed) == IndexOf(s.capacity, ReadPos(s))
  {
    hide PendingStored, ProducerOk, ConsumerOk, Delivered, Start;
  }

  /** The published positions are at most a capacity apart. */
  lemma Distance(s: State)
    requires Inv(s)
    ensures ReadPos(s) <= WritePos(s) && WritePos(s) + InFlight(s.producer) <= ReadPos(s) + s.capacity
  {
    hide Encodes, PendingStored, ProducerOk, ConsumerOk, Delivered, Start;
    StartMonotone(s.pushed, |s.popped|, |s.pushed|);
    StartMonotone(s.pushed, s.prodSeen, |s.popped|);
  }

  /** Distinct positions of one window of a capacity have distinct addresses. */
  lemma WindowInjective(capacity: nat, from: nat, p: nat, q: nat)
    requires from <= p < from + capacity && from <= q < from + capacity && p != q
    ensures Offset(capacity, p) != Offset(capacity, q)
  {
    hide Offset;
    if p < q {
      NoAlias(capacity, p, q);
    } else {
      NoAlias(capacity, q, p);
    }
  }

  lemma SplitHolds(capacity: Word, pushed: seq<Message>, i: nat, index: Index, size: nat)
    requires ValidCapacity(capacity) && HEADER + size <= capacity && i <= |pushed|
    requires index == IndexOf(capacity, Start(pushed, i))
    ensures size % WORD_LIMIT == size
    ensures SplitFor(capacity, Start(pushed, i), size, ProcessMessage(index, size, capacity))
  {
    hide Start, ProcessMessage, Offset, Laps, Up4;
    StartAligned(pushed, i);
    AdvancedIndex(capacity, Start(pushed, i), size);
    RecordAddresses(capacity, Start(pushed, i), size);
  }

  // ----- memory -----

  /** A store at the address of another position of the window leaves a byte alone. */
  lemma ByteFrame(memory: seq<Byte>, stamp: seq<nat>, from: nat, p: nat, q: nat, was: Byte, release: nat, b: Byte, now: nat)
    requires ByteAt(memory, stamp, p, was, release)
    requires from <= p < from + |memory| && from <= q < from + |memory| && p != q
    ensures var a := Offset(|memory|, q);
            ByteAt(memory[a := b], stamp[a := now], p, was, release)
  {
    hide Offset;
    WindowInjective(|memory|, from, p, q);
  }

  lemma RecordFrame(memory: seq<Byte>, stamp: seq<nat>, from: nat, p: nat, m: Message, release: nat, q: nat, b: Byte, now: nat)
    requires 0 < |memory| == |stamp| && RecordAt(memory, stamp, p, m, release)
    requires from <= p && p + HEADER + |m| <= q < from + |memory|
    ensures var a := Offset(|memory|, q);
            RecordAt(memory[a := b], stamp[a := now], p, m, release)
  {
    hide ByteAt, Offset, Record;
    var a := Offset(|memory|, q);
    forall n | 0 <= n < HEADER + |m|
      ensures ByteAt(memory[a := b], stamp[a := now], p + n, Record(m)[n], release)
    {
      assert ByteAt(memory, stamp, p + n, Record(m)[n], release);
      ByteFrame(memory, stamp, from, p + n, q, Record(m)[n], release, b, now);
    }
  }

  /** A store beyond the published records, within a capacity of the first pending one,
      keeps all pending records. */
  lemma {:induction false} StoreKeepsPending(memory: seq<Byte>, stamp: seq<nat>, pushed: seq<Message>, base: nat, from: nat, q: nat, b: Byte, now: nat)
    requires 0 < |memory| == |stamp| && from <= |pushed|
    requires base <= Start(pushed, from) && Start(pushed, |pushed|) <= q < base + |memory|
    requires PendingStored(memory, stamp, pushed, from)
    ensures var a := Offset(|memory|, q);
            PendingStored(memory[a := b], stamp[a := now], pushed, from)
    decreases |pushed| - from
  {
    hide RecordAt, Offset, Up4, Record;
    if from < |pushed| {
      StartMonotone(pushed, from, |pushed|);
      StoreKeepsPending(memory, stamp, pushed, base, from + 1, q, b, now);
      RecordFrame(memory, stamp, base, Start(pushed, from), pushed[from], from + 1, q, b, now);
    }
  }

  lemma StoreKeepsStored(memory: seq<Byte>, stamp: seq<nat>, w: nat, payload: Message, stored: set<nat>, k: nat, now: nat)
    requires k < HEADER + |payload| <= |memory| == |stamp|
    requires StoredAt(memory, stamp, w, payload, stored, now)
    ensures var a := Offset(|memory|, w + k);
            StoredAt(memory[a := Record(payload)[k]], stamp[a := now], w, payload, stored + {k}, now)
  {
    hide Record, Offset;
    var a := Offset(|memory|, w + k);
    forall n | n in stored + {k} && n < HEADER + |payload|
      ensures ByteAt(memory[a := Record(payload)[k]], stamp[a := now], w + n, Record(payload)[n], now)
    {
      if n != k {
        assert ByteAt(memory, stamp, w + n, Record(payload)[n], now);
        ByteFrame(memory, stamp, w, w + n, w + k, Record(payload)[n], now, Record(payload)[k], now);
      }
    }
  }

  lemma {:induction false} PendingAppend(memory: seq<Byte>, stamp: seq<nat>, pushed: seq<Message>, from: nat, m: Message)
    requires PendingStored(memory, stamp, pushed, from) && from <= |pushed|
    requires RecordAt(memory, stamp, Start(pushed, |pushed|), m, |pushed| + 1)
    ensures PendingStored(memory, stamp, pushed + [m], from)
    decreases |pushed| - from
  {
    hide RecordAt;
    StartAppend(pushed, m, from);
    if from < |pushed| {
      PendingAppend(memory, stamp, pushed, from + 1, m);
    }
  }

  // ----- producer steps -----

  lemma PushCallKeeps(s: State, payload: Message)
    requires Inv(s) && Enabled(s, PushCall(payload))
    ensures Inv(Apply(s, PushCall(payload)))
  {
    hide Encodes, PendingStored, ConsumerOk, Delivered, Start;
  }

  lemma AlignedFree(capacity: nat, pushed: seq<Message>, j: nat, free: nat, size: nat)
    requires capacity % 4 == 0 && j <= |pushed|
    requires Start(pushed, |pushed|) + free == Start(pushed, j) + capacity
    ensures HEADER + size <= free <==> RecordSize(size) <= free
  {
    hide Start, Up4;
    StartAligned(pushed, j);
    StartAligned(pushed, |pushed|);
    AdmissionIsAligned(free, size);
  }

  /** From an observed consumer index, however old, the masked expression computes the
      distance to it, no assertion of the waiting loop fails, and the unaligned test
      accepts exactly when the aligned record fits. */
  lemma ObservedFree(s: State, j: nat, size: nat)
    requires Inv(s) && s.prodSeen <= j <= |s.popped| && 0 < s.capacity
    ensures var free := FreeSize(Last(s.produced), s.consumed[j], s.capacity);
            && WritePos(s) + free == Start(s.pushed, j) + s.capacity
            && (HEADER + size <= free <==> RecordSize(size) <= free)
    ensures PushAsserts(Last(s.produced), s.consumed[j], s.capacity)
  {
    hide Encodes, PendingStored, ProducerOk, ConsumerOk, Delivered, Start, FreeSize, PushAsserts;
    StartMonotone(s.pushed, s.prodSeen, j);
    StartMonotone(s.pushed, j, |s.pushed|);
    EncodesAt(s.capacity, s.consumed, s.pushed, |s.popped|, j);
    LastIndices(s);
    FreeOfEncoded(s.capacity, s.pushed, j, Last(s.produced), s.consumed[j], size);
  }

  lemma FreeOfEncoded(capacity: Word, pushed: seq<Message>, j: nat, p: Index, c: Index, size: nat)
    requires ValidCapacity(capacity) && 0 < capacity && j <= |pushed|
    requires Start(pushed, j) <= Start(pushed, |pushed|) <= Start(pushed, j) + capacity
    requires p == IndexOf(capacity, Start(pushed, |pushed|)) && c == IndexOf(capacity, Start(pushed, j))
    ensures var free := FreeSize(p, c, capacity);
            && Start(pushed, |pushed|) + free == Start(pushed, j) + capacity
            && (HEADER + size <= free <==> RecordSize(size) <= free)
    ensures PushAsserts(p, c, capacity)
  {
    hide Start, FreeSize, PushAsserts, Offset, Laps;
    FreeSizeMeaning(capacity, Start(pushed, |pushed|), Start(pushed, j));
    AlignedFree(capacity, pushed, j, FreeSize(p, c, capacity), size);
  }

  lemma PushObserveKeeps(s: State, j: nat)
    requires Inv(s) && Enabled(s, PushObserve(j))
    ensures Inv(Apply(s, PushObserve(j)))
  {
    hide Encodes, PendingStored, ConsumerOk, Delivered, Start, FreeSize, ProcessMessage, SplitFor, Up4;
    var payload := s.producer.payload;
    LastIndices(s);
    ObservedFree(s, j, |payload|);
    StartMonotone(s.pushed, s.prodSeen, j);
    if HEADER + |payload| <= FreeSize(Last(s.produced), s.consumed[j], s.capacity) {
      SplitHolds(s.capacity, s.pushed, |s.pushed|, Last(s.produced), |payload|);
      StartWriting(s, j, ProcessMessage(Last(s.produced), Size32(payload), s.capacity));
    }
  }

  lemma StartWriting(s: State, j: nat, split: Processed)
    requires Inv(s) && s.producer.PWaiting? && s.prodSeen <= j <= |s.popped|
    requires WritePos(s) + RecordSize(|s.producer.payload|) <= Start(s.pushed, j) + s.capacity
    requires SplitFor(s.capacity, WritePos(s), |s.producer.payload|, split)
    ensures Inv(s.(prodSeen := j, producer := PWriting(s.producer.payload, split, {})))
  {
    hide Encodes, PendingStored, ConsumerOk, Delivered, Start, SplitFor, ByteAt;
  }

  lemma PushStoreKeeps(s: State, k: nat)
    requires Inv(s) && Enabled(s, PushStore(k))
    ensures Inv(Apply(s, PushStore(k)))
  {
    hide Encodes, PendingStored, ConsumerOk, Delivered, Start, StoredAt, Record, Offset;
    var p, q := s.producer, WritePos(s) + k;
    LastIndices(s);
    assert StoreAddress(s, k) == Offset(s.capacity, q);
    Distance(s);
    StoreKeepsPending(s.memory, s.stamp, s.pushed, ReadPos(s), |s.popped|, q, Record(p.payload)[k], |s.produced|);
    StoreKeepsStored(s.memory, s.stamp, WritePos(s), p.payload, p.stored, k, |s.produced|);
    var a := StoreAddress(s, k);
    StoredState(s, s.memory[a := Record(p.payload)[k]], s.stamp[a := |s.produced|], p.stored + {k});
  }

  lemma StoredState(s: State, memory: seq<Byte>, stamp: seq<nat>, stored: set<nat>)
    requires Inv(s) && s.producer.PWriting?
    requires |memory| == |stamp| == s.capacity
    requires PendingStored(memory, stamp, s.pushed, |s.popped|)
    requires StoredAt(memory, stamp, WritePos(s), s.producer.payload, stored, |s.pushed| + 1)
    ensures Inv(s.(memory := memory, stamp := stamp,
                   producer := PWriting(s.producer.payload, s.producer.split, stored)))
  {
    hide Encodes, PendingStored, ConsumerOk, Delivered, Start, StoredAt, SplitFor;
  }

  /** Once all bytes are stored, the record is complete behind the published ones. */
  lemma RecordComplete(s: State)
    requires Inv(s) && Enabled(s, PushPublish)
    ensures RecordAt(s.memory, s.stamp, WritePos(s), s.producer.payload, |s.pushed| + 1)
    ensures s.producer.split.index == IndexOf(s.capacity, WritePos(s) + RecordSize(|s.producer.payload|))
  {
    hide Encodes, PendingStored, ConsumerOk, Delivered, Start, ByteAt;
  }

  lemma PushPublishKeeps(s: State)
    requires Inv(s) && Enabled(s, PushPublish)
    ensures Inv(Apply(s, PushPublish))
  {
    hide Encodes, PendingStored, RecordAt, ProducerOk, ConsumerOk, Delivered, Window, IndexOf, RecordSize;
    var m, w, index := s.producer.payload, |s.pushed|, s.producer.split.index;
    var pushed := s.pushed + [m];
    RecordComplete(s);
    PendingAppend(s.memory, s.stamp, s.pushed, |s.popped|, m);
    EncodesAppend(s.capacity, s.produced, s.pushed, w, m);
    EncodesAppend(s.capacity, s.consumed, s.pushed, |s.popped|, m);
    StartAppend(s.pushed, m, w);
    StartAppend(s.pushed, m, s.prodSeen);
    StartAppend(s.pushed, m, |s.popped|);
    EncodesExtend(s.capacity, s.produced, pushed, w, index);
    PublishedState(s, pushed, s.produced + [index]);
  }

  lemma DeliveredStays(pushed: seq<Message>, popped: seq<Message>, delivered: seq<seq<Byte>>, m: Message)
    requires Delivered(pushed, popped, delivered)
    ensures Delivered(pushed + [m], popped, delivered)
  {
    assert (pushed + [m])[..|popped|] == pushed[..|popped|];
  }

  lemma ConsumerStays(capacity: Word, pushed: seq<Message>, count: nat, consSeen: nat, c: Consumer, m: Message)
    requires ConsumerOk(capacity, pushed, count, consSeen, c) && count <= consSeen <= |pushed|
    requires Start(pushed + [m], count) == Start(pushed, count)
    ensures ConsumerOk(capacity, pushed + [m], count, consSeen, c)
  {
    hide Start, SplitFor, LoadedFrom;
  }

  lemma PublishedState(s: State, pushed: seq<Message>, produced: seq<Index>)
    requires Inv(s) && s.producer.PWriting? && pushed == s.pushed + [s.producer.payload]
    requires |produced| == |pushed| + 1
    requires Encodes(s.capacity, produced, pushed, |pushed|)
    requires Encodes(s.capacity, s.consumed, pushed, |s.popped|)
    requires PendingStored(s.memory, s.stamp, pushed, |s.popped|)
    requires Start(pushed, |s.pushed|) == WritePos(s)
    requires Start(pushed, s.prodSeen) == Start(s.pushed, s.prodSeen)
    requires Start(pushed, |s.popped|) == ReadPos(s)
    requires Start(pushed, |pushed|) == WritePos(s) + RecordSize(|s.producer.payload|)
    ensures Inv(s.(produced := produced, pushed := pushed, producer := PIdle))
  {
    hide Encodes, PendingStored, SplitFor, StoredAt, Delivered, ConsumerOk, Start, RecordSize;
    DeliveredStays(s.pushed, s.popped, s.delivered, s.producer.payload);
    ConsumerStays(s.capacity, s.pushed, |s.popped|, s.consSeen, s.consumer, s.producer.payload);
  }

  // ----- consumer steps -----

  lemma PopCallKeeps(s: State, buffer: seq<Byte>)
    requires Inv(s) && Enabled(s, PopCall(buffer))
    ensures Inv(Apply(s, PopCall(buffer)))
  {
    hide Encodes, PendingStored, ProducerOk, Delivered, Start;
  }

  /** An observed producer index differs from the consumer's own exactly if the consumer
      has thereby observed an unread record. */
  lemma ObservedNonEmpty(s: State, j: nat)
    requires Inv(s) && s.consSeen <= j <= |s.pushed|
    ensures Last(s.consumed) == s.produced[j] <==> j == |s.popped|
  {
    hide PendingStored, ProducerOk, ConsumerOk, Delivered, Start;
    Distance(s);
    StartMonotone(s.pushed, |s.popped|, j);
    StartMonotone(s.pushed, j, |s.pushed|);
    EncodesAt(s.capacity, s.produced, s.pushed, |s.pushed|, j);
    EqualIndexIsEqualPosition(s.capacity, ReadPos(s), Start(s.pushed, j));
  }

  lemma PopObserveKeeps(s: State, j: nat)
    requires Inv(s) && Enabled(s, PopObserve(j))
    ensures Inv(Apply(s, PopObserve(j)))
  {
    hide Encodes, PendingStored, ProducerOk, Delivered, Start;
    ObservedNonEmpty(s, j);
  }

  /** The record a `Pop` past its waiting loop is reading: all of it is in memory and
      every one of its bytes is visible to the consumer. */
  lemma CurrentRecord(s: State, k: nat)
    requires Inv(s) && |s.popped| < s.consSeen && k < HEADER + |s.pushed[|s.popped|]|
    ensures ByteAt(s.memory, s.stamp, ReadPos(s) + k, Record(s.pushed[|s.popped|])[k], |s.popped| + 1)
    ensures |s.popped| + 1 <= s.consSeen
    ensures HEADER + |s.pushed[|s.popped|]| <= s.capacity
  {
    hide Encodes, ProducerOk, ConsumerOk, Delivered, Start, Offset, Record;
    assert RecordAt(s.memory, s.stamp, ReadPos(s), s.pushed[|s.popped|], |s.popped| + 1);
  }

  lemma HeaderAddress(capacity: Word, pushed: seq<Message>, i: nat, k: nat)
    requires ValidCapacity(capacity) && 0 < capacity && k < HEADER && i <= |pushed|
    ensures IndexOf(capacity, Start(pushed, i)).value + k == Offset(capacity, Start(pushed, i) + k) < capacity
  {
    hide Laps, Offset, Start;
    StartAligned(pushed, i);
    OffsetAligned(capacity, Start(pushed, i));
    HeaderFits(Offset(capacity, Start(pushed, i)), capacity);
    OffsetStep(capacity, Start(pushed, i), k);
  }

  lemma LoadedHeaderByte(s: State, k: nat, byte: Byte)
    requires Inv(s) && s.consumer.CReady? && k < HEADER && s.consumed != []
    requires MayLoad(s, Last(s.consumed).value + k, byte)
    ensures byte == HeaderBytes(Size32(s.pushed[|s.popped|]))[k]
  {
    hide PendingStored, ProducerOk, Delivered, Start, HeaderBytes;
    CurrentRecord(s, k);
    HeaderAddress(s.capacity, s.pushed, |s.popped|, k);
  }

  /** The header a `Pop` loads is the length of the oldest unread payload. */
  lemma LoadedHeader(s: State, header: seq<Byte>)
    requires Inv(s) && Enabled(s, PopHeader(header))
    ensures HeaderValue(header) == |s.pushed[|s.popped|]|
    ensures HEADER + |s.pushed[|s.popped|]| <= s.capacity
  {
    hide Encodes, PendingStored, ProducerOk, Delivered, Start, HeaderBytes, HeaderValue, MayLoad;
    var m := s.pushed[|s.popped|];
    forall k | 0 <= k < HEADER ensures header[k] == HeaderBytes(Size32(m))[k] {
      assert MayLoad(s, Last(s.consumed).value + k, header[k]);
      LoadedHeaderByte(s, k, header[k]);
    }
    HeaderOf(header, Size32(m));
    CurrentRecord(s, 0);
  }

  lemma PopHeaderKeeps(s: State, header: seq<Byte>)
    requires Inv(s) && Enabled(s, PopHeader(header))
    ensures Inv(Apply(s, PopHeader(header)))
  {
    hide Encodes, PendingStored, ProducerOk, Delivered, Start, HeaderValue, ProcessMessage, SplitFor, MayLoad;
    LoadedHeader(s, header);
    LastIndices(s);
    SplitHolds(s.capacity, s.pushed, |s.popped|, Last(s.consumed), |s.pushed[|s.popped|]|);
  }

  /** The byte a `Pop` loads is the byte that was pushed. */
  lemma LoadedByte(s: State, k: nat, byte: Byte)
    requires Inv(s) && Enabled(s, PopLoad(k, byte))
    ensures byte == s.pushed[|s.popped|][k]
  {
    hide Encodes, PendingStored, ProducerOk, Delivered, Start;
    CurrentRecord(s, HEADER + k);
    LastIndices(s);
    assert LoadAddress(s, k) == Offset(s.capacity, ReadPos(s) + (HEADER + k));
    assert Record(s.pushed[|s.popped|])[HEADER + k] == s.pushed[|s.popped|][k];
  }

  lemma PopLoadKeeps(s: State, k: nat, byte: Byte)
    requires Inv(s) && Enabled(s, PopLoad(k, byte))
    ensures Inv(Apply(s, PopLoad(k, byte)))
  {
    hide Encodes, PendingStored, ProducerOk, Delivered, Start, SplitFor, MayLoad;
    LoadedByte(s, k, byte);
  }

  lemma PopPublishKeeps(s: State)
    requires Inv(s) && Enabled(s, PopPublish)
    ensures Inv(Apply(s, PopPublish))
  {
    hide ProducerOk, RecordAt, Up4;
    var m := s.pushed[|s.popped|];
    EncodesExtend(s.capacity, s.consumed, s.pushed, |s.popped|, s.consumer.split.index);
    assert s.consumer.buffer[..|m|] == m;
    Sequences.TakeOneMore(s.pushed, |s.popped|);
  }

  // ----- runs -----

  lemma InitInv(s: State)
    requires Init(s)
    ensures Inv(s)
  {
  }

  lemma StepKeepsInv(s: State, step: Step)
    requires Inv(s) && Enabled(s, step)
    ensures Inv(Apply(s, step))
  {
    match step
    case PushCall(payload) => PushCallKeeps(s, payload);
    case PushObserve(j) => PushObserveKeeps(s, j);
    case PushStore(k) => PushStoreKeeps(s, k);
    case PushPublish => PushPublishKeeps(s);
    case PopCall(buffer) => PopCallKeeps(s, buffer);
    case PopObserve(j) => PopObserveKeeps(s, j);
    case PopHeader(header) => PopHeaderKeeps(s, header);
    case PopLoad(k, byte) => PopLoadKeeps(s, k, byte);
    case PopPublish => PopPublishKeeps(s);
  }

  lemma {:induction false} RunKeepsInv(s: State, steps: seq<Step>)
    requires Inv(s) && IsRun(s, steps)
    ensures Inv(Final(s, steps))
    decreases |steps|
  {
    if steps != [] {
      StepKeepsInv(s, steps[0]);
      RunKeepsInv(Apply(s, steps[0]), steps[1..]);
    }
  }
}
