/** The shared ring as a state machine. `Push` and `Pop` are split into small steps that
    an arbitrary scheduler interleaves: call, observe the other side's index, move single
    bytes in any order, publish.

    Memory. Each atomic index keeps the sequence of all values published in it. A load by
    the other thread returns any of them that is not older than that thread's previous
    observation (read-read coherence). Every byte carries a stamp, the number of the
    publication that releases its last write. A consumer load of a byte is guaranteed to
    return that write only if the consumer has observed that publication; otherwise the
    byte it gets is arbitrary. */
module RingMachine {
  import opened Words
  import opened Bytes
  import opened RingIndex
  import opened Fifo

  const SIZE_LIMIT: nat := 0x1_0000_0000_0000_0000

  datatype Producer =
    | PIdle
    | PWaiting(payload: Message)
    | PWriting(payload: Message, split: Processed, stored: set<nat>)

  datatype Consumer =
    | CIdle
    | CWaiting(buffer: seq<Byte>)
    | CReady(buffer: seq<Byte>)
    | CCopying(buffer: seq<Byte>, size: Word, split: Processed, loaded: set<nat>)

  /** `produced` and `consumed` are the publication histories of the two indices;
      `prodSeen` and `consSeen` say which publication of the other side each thread
      observed last. `pushed`, `popped` and `delivered` record, for the statements only,
      the payloads published, the payloads returned and the caller buffers at return. */
  datatype State = State(
    capacity: Word,
    memory: seq<Byte>,
    stamp: seq<nat>,
    produced: seq<Index>,
    consumed: seq<Index>,
    prodSeen: nat,
    consSeen: nat,
    producer: Producer,
    consumer: Consumer,
    pushed: seq<Message>,
    popped: seq<Message>,
    delivered: seq<seq<Byte>>)

  datatype Step =
    | PushCall(payload: Message)
    | PushObserve(publication: nat)
    | PushStore(k: nat)
    | PushPublish
    | PopCall(buffer: seq<Byte>)
    | PopObserve(publication: nat)
    | PopHeader(header: seq<Byte>)
    | PopLoad(k: nat, byte: Byte)
    | PopPublish

  // ----- record layout -----

  /** The header word as bytes in memory; writer and reader share one host. */
  function HeaderBytes(n: Word): (s: seq<Byte>)
    ensures |s| == HEADER
  {
    var n1 := n / 256;
    var n2 := n1 / 256;
    var n3 := n2 / 256;
    assert n1 < 0x100_0000;
    assert n2 < 0x1_0000;
    assert n3 < 0x100;
    [n % 256, n1 % 256, n2 % 256, n3]
  }

  function HeaderValue(s: seq<Byte>): Word
    requires |s| == HEADER
  {
    var b0: nat, b1: nat, b2: nat, b3: nat := s[0], s[1], s[2], s[3];
    b0 + 256 * (b1 + 256 * (b2 + 256 * b3))
  }

  lemma HeaderRoundTrip(n: Word)
    ensures HeaderValue(HeaderBytes(n)) == n
  {
  }

  lemma HeaderOf(s: seq<Byte>, n: Word)
    requires |s| == HEADER && forall k :: 0 <= k < HEADER ==> s[k] == HeaderBytes(n)[k]
    ensures HeaderValue(s) == n
  {
    assert s == HeaderBytes(n);
    HeaderRoundTrip(n);
  }

  /** The conversion of a 64-bit length to the 32-bit header field. */
  function Size32(payload: Message): (r: Word)
    ensures |payload| < WORD_LIMIT ==> r == |payload|
  {
    |payload| % WORD_LIMIT
  }

  function Record(payload: Message): (r: seq<Byte>)
    ensures |r| == HEADER + |payload|
  {
    HeaderBytes(Size32(payload)) + payload
  }

  /** The test at the start of `Push`, on a 64-bit length that may wrap. */
  predicate RejectsPush(size: nat, capacity: Word) {
    var recordSize := (HEADER + size) % SIZE_LIMIT;
    recordSize < size || capacity < recordSize
  }

  // ----- steps -----

  function Last(history: seq<Index>): Index
    requires history != []
  {
    history[|history| - 1]
  }

  function StoreAddress(s: State, k: nat): nat
    requires s.produced != [] && s.producer.PWriting?
  {
    RecordAddress(Last(s.produced), s.producer.split.fit, k)
  }

  function LoadAddress(s: State, k: nat): nat
    requires s.consumed != [] && s.consumer.CCopying?
  {
    RecordAddress(Last(s.consumed), s.consumer.split.fit, HEADER + k)
  }

  /** A consumer load may yield `byte`: forced only if the last write is visible. */
  predicate MayLoad(s: State, address: nat, byte: Byte) {
    && address < |s.memory| && address < |s.stamp|
    && (s.stamp[address] <= s.consSeen ==> byte == s.memory[address])
  }

  predicate Enabled(s: State, step: Step) {
    && s.produced != [] && s.consumed != []
    && match step
       case PushCall(payload) => s.producer.PIdle? && |payload| < SIZE_LIMIT
       case PushObserve(j) => s.producer.PWaiting? && s.prodSeen <= j < |s.consumed|
       case PushStore(k) =>
         && s.producer.PWriting? && k < HEADER + |s.producer.payload| && k !in s.producer.stored
         && StoreAddress(s, k) < |s.memory|
         && StoreAddress(s, k) < |s.stamp|
       case PushPublish =>
         && s.producer.PWriting?
         && forall k :: 0 <= k < HEADER + |s.producer.payload| ==> k in s.producer.stored
       case PopCall(buffer) => s.consumer.CIdle?
       case PopObserve(j) => s.consumer.CWaiting? && s.consSeen <= j < |s.produced|
       case PopHeader(header) =>
         && s.consumer.CReady? && |header| == HEADER
         && forall k :: 0 <= k < HEADER ==> MayLoad(s, Last(s.consumed).value + k, header[k])
       case PopLoad(k, byte) =>
         && s.consumer.CCopying? && k < s.consumer.size && k < |s.consumer.buffer|
         && k !in s.consumer.loaded
         && MayLoad(s, LoadAddress(s, k), byte)
       case PopPublish =>
         && s.consumer.CCopying? && s.consumer.size <= |s.consumer.buffer|
         && forall k :: 0 <= k < s.consumer.size ==> k in s.consumer.loaded
  }

  function Apply(s: State, step: Step): State
    requires Enabled(s, step)
  {
    match step
    case PushCall(payload) =>
      if RejectsPush(|payload|, s.capacity) then s  // throws
      else s.(producer := PWaiting(payload))
    case PushObserve(j) =>
      var payload := s.producer.payload;
      var free := FreeSize(Last(s.produced), s.consumed[j], s.capacity);
      s.(prodSeen := j,
         producer := if HEADER + |payload| <= free
                     then PWriting(payload, ProcessMessage(Last(s.produced), Size32(payload), s.capacity), {})
                     else PWaiting(payload))
    case PushStore(k) =>
      var p := s.producer;
      var a := StoreAddress(s, k);
      s.(memory := s.memory[a := Record(p.payload)[k]],
         stamp := s.stamp[a := |s.produced|],
         producer := PWriting(p.payload, p.split, p.stored + {k}))
    case PushPublish =>
      s.(produced := s.produced + [s.producer.split.index],
         pushed := s.pushed + [s.producer.payload],
         producer := PIdle)
    case PopCall(buffer) => s.(consumer := CWaiting(buffer))
    case PopObserve(j) =>
      var buffer := s.consumer.buffer;
      s.(consSeen := j,
         consumer := if Last(s.consumed) == s.produced[j] then CWaiting(buffer) else CReady(buffer))
    case PopHeader(header) =>
      var size := HeaderValue(header);
      if |s.consumer.buffer| < size then s.(consumer := CIdle)  // throws
      else s.(consumer := CCopying(s.consumer.buffer, size, ProcessMessage(Last(s.consumed), size, s.capacity), {}))
    case PopLoad(k, byte) =>
      var c := s.consumer;
      s.(consumer := CCopying(c.buffer[k := byte], c.size, c.split, c.loaded + {k}))
    case PopPublish =>
      var c := s.consumer;
      s.(consumed := s.consumed + [c.split.index],
         popped := s.popped + [c.buffer[..c.size]],
         delivered := s.delivered + [c.buffer],
         consumer := CIdle)
  }

  /** A freshly constructed ring: both indices 0, contents arbitrary. */
  predicate Init(s: State) {
    && ValidCapacity(s.capacity) && |s.memory| == s.capacity
    && s == State(s.capacity, s.memory, seq(s.capacity, _ => 0), [Index(0, 0)], [Index(0, 0)],
                  0, 0, PIdle, CIdle, [], [], [])
  }

  // ----- runs -----

  predicate IsRun(s: State, steps: seq<Step>)
    decreases |steps|
  {
    steps == [] || (Enabled(s, steps[0]) && IsRun(Apply(s, steps[0]), steps[1..]))
  }

  function Final(s: State, steps: seq<Step>): State
    requires IsRun(s, steps)
    decreases |steps|
  {
    if steps == [] then s else Final(Apply(s, steps[0]), steps[1..])
  }

  // ----- the invariant -----

  /** Position at which record `i` starts. */
  function Start(messages: seq<Message>, i: nat): nat
    requires i <= |messages|
  {
    if i == 0 then 0 else Start(messages, i - 1) + RecordSize(|messages[i - 1]|)
  }

  /** Position of the producer index and of the consumer index. */
  function WritePos(s: State): nat { Start(s.pushed, |s.pushed|) }

  function ReadPos(s: State): nat
    requires |s.popped| <= |s.pushed|
  {
    Start(s.pushed, |s.popped|)
  }

  /** Memory holds `b` at a position, by a write that publication `release` releases. */
  predicate ByteAt(memory: seq<Byte>, stamp: seq<nat>, position: nat, b: Byte, release: nat) {
    && 0 < |memory| == |stamp|
    && memory[Offset(|memory|, position)] == b
    && stamp[Offset(|memory|, position)] == release
  }

  predicate RecordAt(memory: seq<Byte>, stamp: seq<nat>, position: nat, payload: Message, release: nat) {
    && HEADER + |payload| <= |memory|
    && forall k :: 0 <= k < HEADER + |payload| ==> ByteAt(memory, stamp, position + k, Record(payload)[k], release)
  }

  /** A publication history: entry `i` stands for the start of record `i`, for all `i` up to `count`. */
  predicate Encodes(capacity: Word, history: seq<Index>, pushed: seq<Message>, count: nat) {
    && ValidCapacity(capacity)
    && count < |history| && count <= |pushed|
    && history[count] == IndexOf(capacity, Start(pushed, count))
    && (count == 0 || Encodes(capacity, history, pushed, count - 1))
  }

  /** The split computed by `ProcessMessage` places a record at `position` and leads to the next one. */
  predicate SplitFor(capacity: Word, position: nat, size: nat, split: Processed) {
    && ValidCapacity(capacity) && HEADER + size <= capacity
    && split.index == IndexOf(capacity, position + RecordSize(size))
    && forall k :: 0 <= k < HEADER + size ==>
         RecordAddress(IndexOf(capacity, position), split.fit, k) == Offset(capacity, position + k)
  }

  /** Bytes the producer may have started to write beyond its published index. */
  function InFlight(producer: Producer): nat {
    if producer.PWriting? then RecordSize(|producer.payload|) else 0
  }

  /** The producer stays within a capacity of the consumer index it has observed. */
  predicate Window(capacity: nat, pushed: seq<Message>, prodSeen: nat, inFlight: nat) {
    && prodSeen <= |pushed|
    && Start(pushed, |pushed|) + inFlight <= Start(pushed, prodSeen) + capacity
  }

  /** Every record from `from` on is in memory, released by its own publication. */
  predicate PendingStored(memory: seq<Byte>, stamp: seq<nat>, pushed: seq<Message>, from: nat)
    decreases |pushed| - from
  {
    || from >= |pushed|
    || (&& RecordAt(memory, stamp, Start(pushed, from), pushed[from], from + 1)
        && PendingStored(memory, stamp, pushed, from + 1))
  }

  predicate StoredAt(memory: seq<Byte>, stamp: seq<nat>, position: nat, payload: Message, stored: set<nat>, release: nat) {
    forall k :: k in stored && k < HEADER + |payload| ==>
      ByteAt(memory, stamp, position + k, Record(payload)[k], release)
  }

  predicate ProducerOk(capacity: Word, memory: seq<Byte>, stamp: seq<nat>, pushed: seq<Message>, p: Producer) {
    match p
    case PIdle => true
    case PWaiting(payload) => HEADER + |payload| <= capacity
    case PWriting(payload, split, stored) =>
      && SplitFor(capacity, Start(pushed, |pushed|), |payload|, split)
      && StoredAt(memory, stamp, Start(pushed, |pushed|), payload, stored, |pushed| + 1)
  }

  predicate LoadedFrom(buffer: seq<Byte>, m: Message, loaded: set<nat>) {
    |m| <= |buffer| && forall k :: k in loaded && k < |m| ==> buffer[k] == m[k]
  }

  predicate ConsumerOk(capacity: Word, pushed: seq<Message>, count: nat, consSeen: nat, c: Consumer) {
    match c
    case CIdle => true
    case CWaiting(_) => true
    case CReady(_) => count < consSeen <= |pushed|
    case CCopying(buffer, size, split, loaded) =>
      && count < consSeen <= |pushed|
      && size == |pushed[count]|
      && SplitFor(capacity, Start(pushed, count), size, split)
      && LoadedFrom(buffer, pushed[count], loaded)
  }

  predicate Delivered(pushed: seq<Message>, popped: seq<Message>, delivered: seq<seq<Byte>>) {
    && |popped| == |delivered| <= |pushed|
    && popped == pushed[..|popped|]
    && (forall i :: 0 <= i < |popped| ==> popped[i] <= delivered[i])
  }

  predicate Inv(s: State) {
    && ValidCapacity(s.capacity)
    && |s.memory| == s.capacity && |s.stamp| == s.capacity
    && s.prodSeen <= |s.popped| <= s.consSeen <= |s.pushed|
    && |s.produced| == |s.pushed| + 1 && |s.consumed| == |s.popped| + 1
    && Encodes(s.capacity, s.produced, s.pushed, |s.pushed|)
    && Encodes(s.capacity, s.consumed, s.pushed, |s.popped|)
    && Window(s.capacity, s.pushed, s.prodSeen, InFlight(s.producer))
    && PendingStored(s.memory, s.stamp, s.pushed, |s.popped|)
    && ProducerOk(s.capacity, s.memory, s.stamp, s.pushed, s.producer)
    && ConsumerOk(s.capacity, s.pushed, |s.popped|, s.consSeen, s.consumer)
    && Delivered(s.pushed, s.popped, s.delivered)
  }
}
