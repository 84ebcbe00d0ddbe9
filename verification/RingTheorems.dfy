/** What the ring promises, for every reachable state of every interleaving. */
module RingTheorems {
  import opened Wrappers
  import opened Words
  import opened Bytes
  import opened RingIndex
  import opened Fifo
  import opened RingMachine
  import opened RingSafety

  ghost predicate Reachable(s: State) {
    exists s0, steps :: Init(s0) && IsRun(s0, steps) && Final(s0, steps) == s
  }

  lemma ReachableInv(s: State)
    requires Reachable(s)
    ensures Inv(s)
  {
    var s0, steps :| Init(s0) && IsRun(s0, steps) && Final(s0, steps) == s;
    InitInv(s0);
    RunKeepsInv(s0, steps);
  }

  lemma {:induction false} RunAppend(s: State, steps: seq<Step>, step: Step)
    requires IsRun(s, steps) && Enabled(Final(s, steps), step)
    ensures IsRun(s, steps + [step]) && Final(s, steps + [step]) == Apply(Final(s, steps), step)
    decreases |steps|
  {
    if steps == [] {
      assert [step][1..] == [];
    } else {
      RunAppend(Apply(s, steps[0]), steps[1..], step);
      assert (steps + [step])[1..] == steps[1..] + [step];
    }
  }

  lemma ReachableStep(s: State, step: Step)
    requires Reachable(s) && Enabled(s, step)
    ensures Reachable(Apply(s, step))
  {
    var s0, steps :| Init(s0) && IsRun(s0, steps) && Final(s0, steps) == s;
    RunAppend(s0, steps, step);
    assert IsRun(s0, steps + [step]);
  }

  lemma ReachableInit(s: State)
    requires Init(s)
    ensures Reachable(s)
  {
    assert IsRun(s, []) && Final(s, []) == s;
  }

  /** The messages published and not yet released. */
  function Pending(s: State): seq<Message>
    requires |s.popped| <= |s.pushed|
  {
    s.pushed[|s.popped|..]
  }

  // ----- order and content -----

  /** The payloads returned are a prefix of the payloads pushed, and each one fills the
      front of the caller's buffer it was returned in. */
  lemma PoppedIsPrefixOfPushed(s: State)
    requires Reachable(s)
    ensures s.popped <= s.pushed
    ensures |s.delivered| == |s.popped|
    ensures forall i :: 0 <= i < |s.popped| ==> s.popped[i] <= s.delivered[i]
  {
    hide Reachable, Encodes, PendingStored, ProducerOk, ConsumerOk;
    ReachableInv(s);
  }

  /** `n` bytes from an index on, read with the split that `ProcessMessage` computes. */
  function Gather(memory: seq<Byte>, index: Index, fit: nat, n: nat): (r: seq<Byte>)
    ensures |r| == n
    ensures forall k :: 0 <= k < n ==>
              var a := RecordAddress(index, fit, HEADER + k);
              a < |memory| ==> r[k] == memory[a]
  {
    if n == 0 then []
    else
      var a := RecordAddress(index, fit, HEADER + (n - 1));
      Gather(memory, index, fit, n - 1) + [if a < |memory| then memory[a] else 0]
  }

  function HeaderAt(memory: seq<Byte>, v: nat): Word
    requires v + HEADER <= |memory|
  {
    HeaderValue(memory[v..v + HEADER])
  }

  lemma HeaderAtIs(memory: seq<Byte>, v: nat, n: Word)
    requires v + HEADER <= |memory|
    requires forall k :: 0 <= k < HEADER ==> memory[v + k] == HeaderBytes(n)[k]
    ensures HeaderAt(memory, v) == n
  {
    HeaderOf(memory[v..v + HEADER], n);
  }

  /** A reader that walks the shared bytes record by record from one raw index until it
      meets another one. */
  function Walk(memory: seq<Byte>, from: Index, to: Index, fuel: nat): Option<seq<Message>>
    requires |memory| < WORD_LIMIT
    decreases fuel
  {
    if from == to then Some([])
    else if fuel == 0 || from.value + HEADER > |memory| then None
    else
      var size := HeaderAt(memory, from.value);
      var split := ProcessMessage(from, size, |memory|);
      match Walk(memory, split.index, to, fuel - 1)
      case None => None
      case Some(rest) => Some([Gather(memory, from, split.fit, size)] + rest)
  }

  lemma HeaderByteInMemory(memory: seq<Byte>, stamp: seq<nat>, pushed: seq<Message>, i: nat, k: nat)
    requires ValidCapacity(|memory|) && i < |pushed| && k < HEADER
    requires RecordAt(memory, stamp, Start(pushed, i), pushed[i], i + 1)
    ensures var v := IndexOf(|memory|, Start(pushed, i)).value;
            && v + HEADER <= |memory|
            && memory[v + k] == HeaderBytes(Size32(pushed[i]))[k]
  {
    hide Start, Offset, Laps, HeaderBytes;
    HeaderAddress(|memory|, pushed, i, HEADER - 1);
    HeaderAddress(|memory|, pushed, i, k);
    assert ByteAt(memory, stamp, Start(pushed, i) + k, Record(pushed[i])[k], i + 1);
  }

  lemma HeaderInMemory(memory: seq<Byte>, stamp: seq<nat>, pushed: seq<Message>, i: nat)
    requires ValidCapacity(|memory|) && i < |pushed|
    requires RecordAt(memory, stamp, Start(pushed, i), pushed[i], i + 1)
    ensures var v := IndexOf(|memory|, Start(pushed, i)).value;
            && v + HEADER <= |memory|
            && HeaderAt(memory, v) == |pushed[i]|
  {
    hide Start, Offset, Laps, HeaderBytes, ByteAt, HeaderAt;
    var v, n := IndexOf(|memory|, Start(pushed, i)).value, Size32(pushed[i]);
    HeaderByteInMemory(memory, stamp, pushed, i, 0);
    forall k | 0 <= k < HEADER ensures memory[v + k] == HeaderBytes(n)[k] {
      HeaderByteInMemory(memory, stamp, pushed, i, k);
    }
    HeaderAtIs(memory, v, n);
  }

  lemma PayloadByteInMemory(memory: seq<Byte>, stamp: seq<nat>, pushed: seq<Message>, i: nat, split: Processed, k: nat)
    requires ValidCapacity(|memory|) && i < |pushed| && k < |pushed[i]|
    requires RecordAt(memory, stamp, Start(pushed, i), pushed[i], i + 1)
    requires SplitFor(|memory|, Start(pushed, i), |pushed[i]|, split)
    ensures var a := RecordAddress(IndexOf(|memory|, Start(pushed, i)), split.fit, HEADER + k);
            a < |memory| && memory[a] == pushed[i][k]
  {
    hide Start, Offset, Laps;
    var m, p := pushed[i], Start(pushed, i);
    assert RecordAddress(IndexOf(|memory|, p), split.fit, HEADER + k) == Offset(|memory|, p + (HEADER + k));
    assert ByteAt(memory, stamp, p + (HEADER + k), Record(m)[HEADER + k], i + 1);
  }

  lemma PayloadInMemory(memory: seq<Byte>, stamp: seq<nat>, pushed: seq<Message>, i: nat, split: Processed)
    requires ValidCapacity(|memory|) && i < |pushed|
    requires RecordAt(memory, stamp, Start(pushed, i), pushed[i], i + 1)
    requires SplitFor(|memory|, Start(pushed, i), |pushed[i]|, split)
    ensures Gather(memory, IndexOf(|memory|, Start(pushed, i)), split.fit, |pushed[i]|) == pushed[i]
  {
    hide Start, RecordAt, SplitFor, IndexOf, Gather;
    var bytes := Gather(memory, IndexOf(|memory|, Start(pushed, i)), split.fit, |pushed[i]|);
    forall k | 0 <= k < |pushed[i]| ensures bytes[k] == pushed[i][k] {
      PayloadByteInMemory(memory, stamp, pushed, i, split, k);
    }
  }

  lemma WalkStep(memory: seq<Byte>, from: Index, to: Index, fuel: nat, size: Word, split: Processed, rest: seq<Message>)
    requires |memory| < WORD_LIMIT && from != to && 0 < fuel && from.value + HEADER <= |memory|
    requires HeaderAt(memory, from.value) == size
    requires split == ProcessMessage(from, size, |memory|)
    requires Walk(memory, split.index, to, fuel - 1) == Some(rest)
    ensures Walk(memory, from, to, fuel) == Some([Gather(memory, from, split.fit, size)] + rest)
  {
  }

  lemma RecordIsNotEmpty(pushed: seq<Message>, i: nat)
    requires i < |pushed|
    ensures Start(pushed, i) < Start(pushed, i) + RecordSize(|pushed[i]|) == Start(pushed, i + 1)
  {
    hide Up4;
  }

  lemma WalkEnd(memory: seq<Byte>, index: Index, fuel: nat)
    requires |memory| < WORD_LIMIT
    ensures Walk(memory, index, index, fuel) == Some([])
  {
  }

  lemma {:induction false} WalkReadsPending(memory: seq<Byte>, stamp: seq<nat>, pushed: seq<Message>, i: nat, fuel: nat)
    requires ValidCapacity(|memory|) && i <= |pushed| && |pushed| - i <= fuel
    requires Start(pushed, |pushed|) <= Start(pushed, i) + |memory|
    requires PendingStored(memory, stamp, pushed, i)
    ensures Walk(memory, IndexOf(|memory|, Start(pushed, i)), IndexOf(|memory|, Start(pushed, |pushed|)), fuel) == Some(pushed[i..])
    decreases |pushed| - i
  {
    hide RecordAt, IndexOf, Start, RecordSize, Walk;
    if i < |pushed| {
      StartMonotone(pushed, i, |pushed|);
      EqualIndexIsEqualPosition(|memory|, Start(pushed, i), Start(pushed, |pushed|));
      RecordIsNotEmpty(pushed, i);
      WalkReadsPending(memory, stamp, pushed, i + 1, fuel - 1);
      WalkOne(memory, stamp, pushed, i, fuel);
    } else {
      WalkEnd(memory, IndexOf(|memory|, Start(pushed, i)), fuel);
      assert pushed[i..] == [];
    }
  }

  lemma WalkOne(memory: seq<Byte>, stamp: seq<nat>, pushed: seq<Message>, i: nat, fuel: nat)
    requires ValidCapacity(|memory|) && i < |pushed| && 0 < fuel
    requires RecordAt(memory, stamp, Start(pushed, i), pushed[i], i + 1)
    requires IndexOf(|memory|, Start(pushed, i)) != IndexOf(|memory|, Start(pushed, |pushed|))
    requires Walk(memory, IndexOf(|memory|, Start(pushed, i + 1)), IndexOf(|memory|, Start(pushed, |pushed|)), fuel - 1) == Some(pushed[i + 1..])
    ensures Walk(memory, IndexOf(|memory|, Start(pushed, i)), IndexOf(|memory|, Start(pushed, |pushed|)), fuel) == Some(pushed[i..])
  {
    hide ByteAt, IndexOf, ProcessMessage, Walk, Up4;
    var index := IndexOf(|memory|, Start(pushed, i));
    SplitHolds(|memory|, pushed, i, index, |pushed[i]|);
    WalkSplit(memory, stamp, pushed, i, fuel, ProcessMessage(index, |pushed[i]|, |memory|));
  }

  lemma WalkSplit(memory: seq<Byte>, stamp: seq<nat>, pushed: seq<Message>, i: nat, fuel: nat, split: Processed)
    requires ValidCapacity(|memory|) && i < |pushed| && 0 < fuel
    requires RecordAt(memory, stamp, Start(pushed, i), pushed[i], i + 1)
    requires IndexOf(|memory|, Start(pushed, i)) != IndexOf(|memory|, Start(pushed, |pushed|))
    requires SplitFor(|memory|, Start(pushed, i), |pushed[i]|, split)
    requires split == ProcessMessage(IndexOf(|memory|, Start(pushed, i)), |pushed[i]|, |memory|)
    requires split.index == IndexOf(|memory|, Start(pushed, i + 1))
    requires Walk(memory, IndexOf(|memory|, Start(pushed, i + 1)), IndexOf(|memory|, Start(pushed, |pushed|)), fuel - 1) == Some(pushed[i + 1..])
    ensures Walk(memory, IndexOf(|memory|, Start(pushed, i)), IndexOf(|memory|, Start(pushed, |pushed|)), fuel) == Some(pushed[i..])
  {
    hide Start, RecordAt, IndexOf, ProcessMessage, Walk, HeaderAt, Gather, RecordAddress;
    var from, to := IndexOf(|memory|, Start(pushed, i)), IndexOf(|memory|, Start(pushed, |pushed|));
    HeaderInMemory(memory, stamp, pushed, i);
    PayloadInMemory(memory, stamp, pushed, i, split);
    WalkStep(memory, from, to, fuel, |pushed[i]|, split, pushed[i + 1..]);
    assert pushed[i..] == [pushed[i]] + pushed[i + 1..];
  }

  lemma PublishedFacts(s: State)
    requires Reachable(s)
    ensures ValidCapacity(|s.memory|) && |s.popped| <= |s.pushed| && s.consumed != [] && s.produced != []
    ensures Last(s.consumed) == IndexOf(|s.memory|, ReadPos(s)) && Last(s.produced) == IndexOf(|s.memory|, WritePos(s))
    ensures WritePos(s) <= ReadPos(s) + |s.memory|
    ensures PendingStored(s.memory, s.stamp, s.pushed, |s.popped|)
  {
    hide Reachable, Encodes, ProducerOk, ConsumerOk, Delivered, Start;
    ReachableInv(s);
    LastIndices(s);
    StartMonotone(s.pushed, s.prodSeen, |s.popped|);
  }

  /** The shared bytes between the two published indices are exactly the pending messages. */
  lemma PublishedBytesDecode(s: State, fuel: nat)
    requires Reachable(s) && |s.pushed| - |s.popped| <= fuel
    ensures |s.memory| < WORD_LIMIT && |s.popped| <= |s.pushed| && s.consumed != [] && s.produced != []
    ensures Walk(s.memory, Last(s.consumed), Last(s.produced), fuel) == Some(Pending(s))
  {
    hide Reachable, PendingStored, Start, Walk;
    PublishedFacts(s);
    WalkReadsPending(s.memory, s.stamp, s.pushed, |s.popped|, fuel);
  }

  // ----- disjointness and visibility -----

  /** Whatever old consumer index the producer decided from, the bytes an in-flight `Push`
      stores lie outside every published, unreleased record, and were released by a
      consumer publication the producer has observed. */
  lemma StoresAreDisjoint(s: State, k: nat, p: nat)
    requires Reachable(s) && s.producer.PWriting? && k < HEADER + |s.producer.payload|
    requires |s.popped| <= |s.pushed| && ReadPos(s) <= p < WritePos(s)
    ensures s.produced != [] && StoreAddress(s, k) < |s.memory| == s.capacity
    ensures StoreAddress(s, k) != Offset(s.capacity, p)
    ensures s.prodSeen <= |s.popped| && WritePos(s) + k < Start(s.pushed, s.prodSeen) + s.capacity
  {
    hide Reachable, Encodes, PendingStored, ConsumerOk, Delivered, Start, Offset, StoredAt;
    ReachableInv(s);
    Distance(s);
    LastIndices(s);
    assert StoreAddress(s, k) == Offset(s.capacity, WritePos(s) + k);
    WindowInjective(s.capacity, ReadPos(s), p, WritePos(s) + k);
  }

  /** In particular an in-flight `Push` never stores into a byte that an in-flight `Pop`
      still has to copy. */
  lemma StoreAndLoadNeverCollide(s: State, k: nat, n: nat)
    requires Reachable(s) && s.producer.PWriting? && k < HEADER + |s.producer.payload|
    requires s.consumer.CCopying? && n < s.consumer.size
    ensures s.produced != [] && s.consumed != [] && StoreAddress(s, k) != LoadAddress(s, n)
  {
    hide Reachable, PendingStored, Delivered, Start, Offset, StoredAt, Encodes;
    ReachableInv(s);
    var p := ReadPos(s) + (HEADER + n);
    LastIndices(s);
    assert LoadAddress(s, n) == Offset(s.capacity, p);
    StartMonotone(s.pushed, |s.popped|, |s.pushed|);
    StoresAreDisjoint(s, k, p);
  }

  /** Every byte a `Pop` copies was released by a producer publication the consumer has
      observed, so the load is never left to chance: it yields the pushed byte. */
  lemma LoadsAreVisible(s: State, n: nat)
    requires Reachable(s) && s.consumer.CCopying? && n < s.consumer.size
    ensures s.consumed != [] && LoadAddress(s, n) < |s.memory| == |s.stamp|
    ensures s.stamp[LoadAddress(s, n)] <= s.consSeen
    ensures |s.popped| < |s.pushed| && s.consumer.size == |s.pushed[|s.popped|]|
    ensures s.memory[LoadAddress(s, n)] == s.pushed[|s.popped|][n]
  {
    hide Reachable, Encodes, PendingStored, ProducerOk, Delivered, Start, Offset;
    ReachableInv(s);
    CurrentRecord(s, HEADER + n);
    LastIndices(s);
    assert LoadAddress(s, n) == Offset(s.capacity, ReadPos(s) + (HEADER + n));
  }

  lemma {:induction false} PendingRecord(memory: seq<Byte>, stamp: seq<nat>, pushed: seq<Message>, from: nat, i: nat)
    requires PendingStored(memory, stamp, pushed, from) && from <= i < |pushed|
    ensures RecordAt(memory, stamp, Start(pushed, i), pushed[i], i + 1)
    decreases i - from
  {
    hide RecordAt, Start;
    if from < i {
      PendingRecord(memory, stamp, pushed, from + 1, i);
    }
  }

  /** What a consumer load of a published byte may yield, exactly: the pushed byte once the
      consumer has observed the publication of its record, and any byte until then. */
  lemma PublishedIsVisible(s: State, i: nat, k: nat, byte: Byte)
    requires Reachable(s) && |s.popped| <= i < |s.pushed| && k < HEADER + |s.pushed[i]| && 0 < s.capacity
    ensures MayLoad(s, Offset(s.capacity, Start(s.pushed, i) + k), byte) <==>
              (i < s.consSeen ==> byte == Record(s.pushed[i])[k])
  {
    hide Reachable, Encodes, ProducerOk, ConsumerOk, Delivered, Start, Offset, Record;
    ReachableInv(s);
    PendingRecord(s.memory, s.stamp, s.pushed, |s.popped|, i);
    assert ByteAt(s.memory, s.stamp, Start(s.pushed, i) + k, Record(s.pushed[i])[k], i + 1);
  }

  /** A byte stored by a `Push` that has not published yet guarantees a load nothing. */
  lemma UnpublishedIsInvisible(s: State, k: nat, byte: Byte)
    requires Reachable(s) && s.producer.PWriting? && k in s.producer.stored && k < HEADER + |s.producer.payload|
    ensures s.produced != [] && MayLoad(s, StoreAddress(s, k), byte)
  {
    hide Reachable, Encodes, PendingStored, ConsumerOk, Delivered, Start, Offset, Record;
    ReachableInv(s);
    LastIndices(s);
    assert ByteAt(s.memory, s.stamp, WritePos(s) + k, Record(s.producer.payload)[k], |s.pushed| + 1);
    assert StoreAddress(s, k) == Offset(s.capacity, WritePos(s) + k);
  }

  // ----- observations -----

  /** A waiting `Push` may observe any consumer index from its previous observation on. It
      then proceeds exactly if its aligned record fits between its position and the
      observed one, a capacity further on; otherwise it keeps waiting. Nothing else changes. */
  lemma PushProceedsExactly(s: State, j: nat)
    requires Reachable(s) && s.producer.PWaiting? && s.prodSeen <= j < |s.consumed|
    ensures j <= |s.pushed| && Enabled(s, PushObserve(j))
    ensures var t, payload := Apply(s, PushObserve(j)), s.producer.payload;
            && t == s.(prodSeen := j, producer := t.producer)
            && (t.producer.PWriting? <==>
                  WritePos(s) + RecordSize(|payload|) <= Start(s.pushed, j) + s.capacity)
            && (t.producer.PWriting? ==> t.producer.payload == payload && t.producer.stored == {})
            && (!t.producer.PWriting? ==> t.producer == s.producer)
  {
    hide Reachable, Encodes, PendingStored, ConsumerOk, Start, FreeSize, RecordSize, PushAsserts, ProcessMessage;
    ReachableInv(s);
    ObservedFree(s, j, |s.producer.payload|);
  }

  /** A waiting `Pop` may observe any producer index from its previous observation on, and
      proceeds exactly if that index publishes a record it has not read. */
  lemma PopProceedsExactly(s: State, j: nat)
    requires Reachable(s) && s.consumer.CWaiting? && s.consSeen <= j < |s.produced|
    ensures Enabled(s, PopObserve(j))
    ensures var t := Apply(s, PopObserve(j));
            && t == s.(consSeen := j, consumer := t.consumer)
            && t.consumer == (if |s.popped| < j then CReady(s.consumer.buffer) else s.consumer)
  {
    hide Reachable, Encodes, PendingStored, ProducerOk, ConsumerOk, Start;
    ReachableInv(s);
    ObservedNonEmpty(s, j);
  }

  /** Which steps a reachable state allows, in terms of the messages: every call, every
      observation that coherence allows, and the moves of the bytes of the current record
      in any order; a load has exactly one possible outcome. */
  lemma EnabledExactly(s: State, step: Step)
    requires Reachable(s)
    ensures |s.popped| <= |s.pushed| && (s.consumer.CReady? || s.consumer.CCopying? ==> |s.popped| < |s.pushed|)
    ensures Enabled(s, step) <==>
              match step
              case PushCall(payload) => s.producer == PIdle && |payload| < SIZE_LIMIT
              case PushObserve(j) => s.producer.PWaiting? && s.prodSeen <= j <= |s.popped|
              case PushStore(k) =>
                s.producer.PWriting? && k < HEADER + |s.producer.payload| && k !in s.producer.stored
              case PushPublish =>
                s.producer.PWriting? && forall k :: 0 <= k < HEADER + |s.producer.payload| ==> k in s.producer.stored
              case PopCall(_) => s.consumer == CIdle
              case PopObserve(j) => s.consumer.CWaiting? && s.consSeen <= j <= |s.pushed|
              case PopHeader(header) =>
                s.consumer.CReady? && header == HeaderBytes(Size32(s.pushed[|s.popped|]))
              case PopLoad(k, byte) =>
                && s.consumer.CCopying? && k < |s.pushed[|s.popped|]| && k !in s.consumer.loaded
                && byte == s.pushed[|s.popped|][k]
              case PopPublish =>
                && s.consumer.CCopying?
                && forall k :: 0 <= k < |s.pushed[|s.popped|]| ==> k in s.consumer.loaded
  {
    hide Reachable, Encodes, PendingStored, Start, Offset, HeaderBytes, Record, SplitFor, StoredAt;
    ReachableInv(s);
    match step
    case PushStore(k) =>
      if s.producer.PWriting? && k < HEADER + |s.producer.payload| {
        StoreInMemory(s, k);
      }
    case PopHeader(header) =>
      if s.consumer.CReady? && |header| == HEADER {
        HeaderLoads(s, header);
      }
    case PopLoad(k, byte) =>
      if s.consumer.CCopying? && k < s.consumer.size {
        LoadYields(s, k, byte);
      }
    case _ =>
  }

  lemma StoreInMemory(s: State, k: nat)
    requires Reachable(s) && s.producer.PWriting? && k < HEADER + |s.producer.payload|
    ensures s.produced != [] && s.consumed != []
    ensures StoreAddress(s, k) < |s.memory| == |s.stamp|
  {
    hide Reachable, Encodes, PendingStored, ConsumerOk, Delivered, Start, Offset, StoredAt;
    ReachableInv(s);
    LastIndices(s);
    assert StoreAddress(s, k) == Offset(s.capacity, WritePos(s) + k);
  }

  lemma LoadYields(s: State, k: nat, byte: Byte)
    requires Reachable(s) && s.consumer.CCopying? && k < s.consumer.size
    ensures s.consumed != [] && |s.popped| < |s.pushed| && s.consumer.size == |s.pushed[|s.popped|]|
    ensures MayLoad(s, LoadAddress(s, k), byte) <==> byte == s.pushed[|s.popped|][k]
  {
    hide Reachable;
    LoadsAreVisible(s, k);
  }

  lemma HeaderByteLoads(s: State, k: nat, byte: Byte)
    requires Reachable(s) && s.consumer.CReady? && k < HEADER
    ensures s.consumed != [] && |s.popped| < |s.pushed|
    ensures MayLoad(s, Last(s.consumed).value + k, byte) <==> byte == HeaderBytes(Size32(s.pushed[|s.popped|]))[k]
  {
    hide Reachable, Encodes, PendingStored, ProducerOk, Delivered, Start, Offset, HeaderBytes;
    ReachableInv(s);
    LastIndices(s);
    CurrentRecord(s, k);
    HeaderAddress(s.capacity, s.pushed, |s.popped|, k);
  }

  lemma HeaderLoads(s: State, header: seq<Byte>)
    requires Reachable(s) && s.consumer.CReady? && |header| == HEADER
    ensures s.consumed != [] && |s.popped| < |s.pushed|
    ensures (forall k :: 0 <= k < HEADER ==> MayLoad(s, Last(s.consumed).value + k, header[k])) <==>
            header == HeaderBytes(Size32(s.pushed[|s.popped|]))
  {
    hide Reachable, MayLoad, HeaderBytes;
    HeaderByteLoads(s, 0, header[0]);
    forall k | 0 <= k < HEADER
      ensures MayLoad(s, Last(s.consumed).value + k, header[k]) <==>
              header[k] == HeaderBytes(Size32(s.pushed[|s.popped|]))[k]
    {
      HeaderByteLoads(s, k, header[k]);
    }
  }

  // ----- errors -----

  /** `Push` throws exactly when header and payload exceed the capacity, also where the
      64-bit sum wraps; throwing changes nothing. */
  lemma PushRejection(s: State, payload: Message)
    requires Enabled(s, PushCall(payload))
    ensures s.capacity < HEADER + |payload| ==> Apply(s, PushCall(payload)) == s
    ensures HEADER + |payload| <= s.capacity ==> Apply(s, PushCall(payload)) == s.(producer := PWaiting(payload))
  {
  }

  /** `Pop` throws exactly when the caller's buffer is smaller than the oldest pending
      message. Throwing leaves memory, indices and messages alone; not throwing, its copy
      length is that message's length. */
  lemma PopRejection(s: State, header: seq<Byte>)
    requires Reachable(s) && Enabled(s, PopHeader(header))
    ensures |s.popped| < |s.pushed|
    ensures var t, m := Apply(s, PopHeader(header)), s.pushed[|s.popped|];
            && t == s.(consumer := t.consumer)
            && (t.consumer.CIdle? <==> |s.consumer.buffer| < |m|)
            && (t.consumer.CIdle? || (t.consumer.CCopying? && t.consumer.size == |m|))
  {
    hide Reachable, Encodes, PendingStored, ProducerOk, Delivered, Start, MayLoad, HeaderValue, ProcessMessage;
    ReachableInv(s);
    LoadedHeader(s, header);
  }

  /** No assertion of the waiting loop of `Push` fails, for any observation that coherence
      allows. */
  lemma PushAssertionsHold(s: State, j: nat)
    requires Reachable(s) && Enabled(s, PushObserve(j))
    ensures PushAsserts(Last(s.produced), s.consumed[j], s.capacity)
  {
    hide Reachable, Encodes, PendingStored, Delivered, Start, PushAsserts, FreeSize;
    ReachableInv(s);
    ObservedFree(s, j, 0);
  }

  lemma RecordAssertsHold(capacity: Word, pushed: seq<Message>, i: nat, index: Index, size: Word)
    requires ValidCapacity(capacity) && HEADER + size <= capacity && i <= |pushed|
    requires index == IndexOf(capacity, Start(pushed, i))
    ensures ProcessMessageAsserts(index, size, capacity)
  {
    hide Start, Offset, Laps, ProcessMessageAsserts;
    StartAligned(pushed, i);
    OffsetAligned(capacity, Start(pushed, i));
    ProcessMessageAssertsHold(index, size, capacity);
  }

  /** No assertion of `ProcessMessage` fails when a `Push` or a `Pop` reaches it. */
  lemma PushProcessMessageAssertionsHold(s: State)
    requires Reachable(s) && s.producer.PWaiting?
    ensures s.produced != []
    ensures ProcessMessageAsserts(Last(s.produced), Size32(s.producer.payload), s.capacity)
  {
    hide Reachable, PendingStored, Delivered, Start, ProcessMessageAsserts, Encodes;
    ReachableInv(s);
    LastIndices(s);
    RecordAssertsHold(s.capacity, s.pushed, |s.pushed|, Last(s.produced), Size32(s.producer.payload));
  }

  lemma PopProcessMessageAssertionsHold(s: State, header: seq<Byte>)
    requires Reachable(s) && Enabled(s, PopHeader(header))
    ensures ProcessMessageAsserts(Last(s.consumed), HeaderValue(header), s.capacity)
  {
    hide Reachable, PendingStored, Delivered, Start, ProcessMessageAsserts, Encodes, MayLoad, HeaderValue;
    ReachableInv(s);
    LoadedHeader(s, header);
    LastIndices(s);
    RecordAssertsHold(s.capacity, s.pushed, |s.popped|, Last(s.consumed), HeaderValue(header));
  }

  // ----- conservation and the bounded channel -----

  lemma {:induction false} TotalIsDistance(pushed: seq<Message>, i: nat)
    requires i <= |pushed|
    ensures Start(pushed, |pushed|) == Start(pushed, i) + Total(pushed[i..])
    decreases |pushed| - i
  {
    if i < |pushed| {
      TotalIsDistance(pushed, i + 1);
      assert pushed[i..][1..] == pushed[i + 1..];
    }
  }

  /** Free size plus the aligned sizes of the pending records is the capacity, and the
      test on the unaligned size admits a message exactly when its aligned record fits. */
  lemma Conservation(s: State, m: Message)
    requires Reachable(s) && 0 < s.capacity
    ensures s.produced != [] && s.consumed != [] && |s.popped| <= |s.pushed|
    ensures var free := FreeSize(Last(s.produced), Last(s.consumed), s.capacity);
            && free + Total(Pending(s)) == s.capacity
            && (HEADER + |m| <= free <==> Admits(s.capacity, Pending(s), m))
  {
    hide Reachable, Encodes, PendingStored, ProducerOk, ConsumerOk, FreeSize, Start, Total;
    ReachableInv(s);
    ObservedFree(s, |s.popped|, |m|);
    TotalIsDistance(s.pushed, |s.popped|);
  }

  /** The ring refines a bounded first-in first-out channel: a publishing `Push` appends a
      message that the channel admits, a publishing `Pop` removes the oldest one, and no
      other step changes the queue. */
  lemma RefinesFifo(s: State, step: Step)
    requires Inv(s) && Enabled(s, step)
    ensures Inv(Apply(s, step))
    ensures FifoStep(s.capacity, Pending(s), Pending(Apply(s, step)))
    ensures step.PushPublish? ==> Pending(Apply(s, step)) == Pending(s) + [s.producer.payload]
    ensures step.PopPublish? ==> Apply(s, step).popped + Pending(Apply(s, step)) == s.popped + Pending(s)
    ensures !step.PushPublish? && !step.PopPublish? ==> Pending(Apply(s, step)) == Pending(s)
  {
    hide Inv, Admits;
    StepKeepsInv(s, step);
    if step.PushPublish? {
      PublishAppends(s);
    } else if step.PopPublish? {
      PublishRemoves(s);
    }
  }

  lemma PublishAppends(s: State)
    requires Inv(s) && Enabled(s, PushPublish)
    ensures var t := Apply(s, PushPublish);
            && Pending(t) == Pending(s) + [s.producer.payload]
            && Admits(s.capacity, Pending(s), s.producer.payload)
  {
    hide Encodes, PendingStored, ConsumerOk, Start, SplitFor, StoredAt, Total;
    Distance(s);
    TotalIsDistance(s.pushed, |s.popped|);
  }

  lemma PublishRemoves(s: State)
    requires Inv(s) && Enabled(s, PopPublish)
    ensures var t := Apply(s, PopPublish);
            && |t.popped| <= |t.pushed|
            && Pending(s) != [] && Pending(t) == Pending(s)[1..]
            && t.popped + Pending(t) == s.popped + Pending(s)
  {
    hide Encodes, PendingStored, ProducerOk, Start, SplitFor;
    var t := Apply(s, PopPublish);
    PopPublishKeeps(s);
    assert t.popped + Pending(t) == s.pushed;
    assert s.popped + Pending(s) == s.pushed;
  }

  /** Observing publication `j` lets a waiting `Push` proceed exactly if its aligned record
      fits in front of that index, a capacity further on. */
  predicate LetsOnExactly(s: State, j: nat)
    requires s.producer.PWaiting?
  {
    && j <= |s.pushed| && Enabled(s, PushObserve(j))
    && (Apply(s, PushObserve(j)).producer.PWriting? <==>
          WritePos(s) + RecordSize(|s.producer.payload|) <= Start(s.pushed, j) + s.capacity)
  }

  /** With an up-to-date observation, a waiting `Push` proceeds exactly when the abstract
      channel admits its message, and a waiting `Pop` exactly when it is not empty. With any
      older one the `Push` proceeds exactly if its record fits in front of the index seen. */
  lemma WaitsLikeFifo(s: State)
    requires Reachable(s)
    ensures s.produced != [] && s.consumed != [] && |s.popped| <= |s.pushed|
    ensures s.producer.PWaiting? ==>
              var latest := PushObserve(|s.consumed| - 1);
              && Enabled(s, latest)
              && (Apply(s, latest).producer.PWriting? <==> Admits(s.capacity, Pending(s), s.producer.payload))
    ensures s.producer.PWaiting? ==>
              forall j: nat :: s.prodSeen <= j < |s.consumed| ==> LetsOnExactly(s, j)
    ensures s.consumer.CWaiting? ==>
              var latest := PopObserve(|s.produced| - 1);
              && Enabled(s, latest)
              && (Apply(s, latest).consumer.CReady? <==> Pending(s) != [])
  {
    hide Reachable, Encodes, PendingStored, ConsumerOk, FreeSize, Admits, Start, SplitFor, StoredAt;
    ReachableInv(s);
    if s.producer.PWaiting? {
      Conservation(s, s.producer.payload);
      EveryObservation(s);
    }
    ObservedNonEmpty(s, |s.pushed|);
  }

  lemma EveryObservation(s: State)
    requires Reachable(s) && s.producer.PWaiting?
    ensures forall j: nat :: s.prodSeen <= j < |s.consumed| ==> LetsOnExactly(s, j)
  {
    hide Reachable, Enabled, Apply, Start, RecordSize;
    forall j: nat | s.prodSeen <= j < |s.consumed| ensures LetsOnExactly(s, j) {
      PushProceedsExactly(s, j);
    }
  }

  // ----- progress -----

  /** A step that advances its thread: not a new call, not an observation after which the
      thread still waits, not a throw. */
  predicate Productive(s: State, step: Step)
    requires Enabled(s, step)
  {
    var t := Apply(s, step);
    match step
    case PushCall(_) => false
    case PopCall(_) => false
    case PushObserve(_) => t.producer.PWriting?
    case PopObserve(_) => t.consumer.CReady?
    case PopHeader(_) => t.consumer.CCopying?
    case _ => true
  }

  /** An empty ring admits every message that fits its capacity at all, wherever its index
      stands; so a producer that must wait has a pending message before it. */
  lemma EmptyRingAdmits(s: State)
    requires Reachable(s) && s.producer.PWaiting? && s.popped == s.pushed
    ensures s.consumed != []
    ensures Enabled(s, PushObserve(|s.consumed| - 1)) && Productive(s, PushObserve(|s.consumed| - 1))
  {
    hide Reachable, Encodes, PendingStored, ConsumerOk, FreeSize, Start;
    ReachableInv(s);
    WaitsLikeFifo(s);
    AdmissionIsAligned(s.capacity, |s.producer.payload|);
  }

  /** And a waiting `Pop` gets on as soon as there is a pending message. */
  lemma NonEmptyRingYields(s: State)
    requires Reachable(s) && s.consumer.CWaiting? && s.popped != s.pushed
    ensures s.produced != []
    ensures Enabled(s, PopObserve(|s.produced| - 1)) && Productive(s, PopObserve(|s.produced| - 1))
  {
    hide Reachable, Encodes, PendingStored, ProducerOk, ConsumerOk, Start;
    ReachableInv(s);
    WaitsLikeFifo(s);
    assert |s.popped| < |s.pushed|;
  }

  lemma WriterProceeds(s: State) returns (step: Step)
    requires Reachable(s) && s.producer.PWriting?
    ensures Enabled(s, step) && Productive(s, step)
  {
    hide Reachable, Encodes, PendingStored, ConsumerOk, Delivered, Start, Offset, StoredAt, Record;
    ReachableInv(s);
    var n := HEADER + |s.producer.payload|;
    LastIndices(s);
    if k: nat :| k < n && k !in s.producer.stored {
      assert StoreAddress(s, k) == Offset(s.capacity, WritePos(s) + k);
      step := PushStore(k);
    } else {
      step := PushPublish;
    }
  }

  lemma ReaderProceeds(s: State) returns (step: Step)
    requires Reachable(s) && s.consumer.CCopying?
    ensures Enabled(s, step) && Productive(s, step)
  {
    hide Reachable, Encodes, PendingStored, ProducerOk, Delivered, Start, Offset;
    ReachableInv(s);
    if n: nat :| n < s.consumer.size && n !in s.consumer.loaded {
      LoadsAreVisible(s, n);
      step := PopLoad(n, s.memory[LoadAddress(s, n)]);
    } else {
      step := PopPublish;
    }
  }

  lemma HeaderReaderProceeds(s: State) returns (step: Step)
    requires Reachable(s) && s.consumer.CReady?
    requires forall m :: m in s.pushed ==> |m| <= |s.consumer.buffer|
    ensures Enabled(s, step) && Productive(s, step)
  {
    hide Reachable, Encodes, ProducerOk, Delivered, Start, Offset, ProcessMessage, HeaderValue;
    ReachableInv(s);
    var v := Last(s.consumed).value;
    LastIndices(s);
    CurrentRecord(s, 0);
    HeaderInMemory(s.memory, s.stamp, s.pushed, |s.popped|);
    assert s.pushed[|s.popped|] in s.pushed;
    step := PopHeader(s.memory[v..v + HEADER]);
    LoadedHeader(s, step.header);
  }

  /** Whenever both a `Push` and a `Pop` are under way and the reader's buffer is large
      enough, one of the two can advance. */
  lemma SomeoneProceeds(s: State) returns (step: Step)
    requires Reachable(s) && !s.producer.PIdle? && !s.consumer.CIdle?
    requires forall m :: m in s.pushed ==> |m| <= |s.consumer.buffer|
    ensures Enabled(s, step) && Productive(s, step)
  {
    hide Reachable, Enabled, Productive;
    if s.producer.PWriting? {
      step := WriterProceeds(s);
    } else if s.consumer.CCopying? {
      step := ReaderProceeds(s);
    } else if s.consumer.CReady? {
      step := HeaderReaderProceeds(s);
    } else if s.popped == s.pushed {
      EmptyRingAdmits(s);
      step := PushObserve(|s.consumed| - 1);
    } else {
      NonEmptyRingYields(s);
      step := PopObserve(|s.produced| - 1);
    }
  }

  /** How many of the offsets below `n` are not yet done. */
  function Missing(n: nat, done: set<nat>): (r: nat)
    ensures r <= n
  {
    if n == 0 then 0 else Missing(n - 1, done) + (if n - 1 in done then 0 else 1)
  }

  lemma {:induction false} MissingDecreases(n: nat, done: set<nat>, k: nat)
    requires k !in done
    ensures Missing(n, done + {k}) == Missing(n, done) - (if k < n then 1 else 0)
  {
    if n > 0 {
      MissingDecreases(n - 1, done, k);
    }
  }

  /** A bound on the advancing steps the operations under way still need. */
  function Effort(s: State): nat {
    (match s.producer
     case PIdle => 0
     case PWaiting(payload) => HEADER + |payload| + 2
     case PWriting(payload, _, stored) => Missing(HEADER + |payload|, stored) + 1)
    +
    (match s.consumer
     case CIdle => 0
     case CWaiting(_) => s.capacity + 3
     case CReady(_) => s.capacity + 2
     case CCopying(_, size, _, loaded) => Missing(size, loaded) + 1)
  }

  /** Every productive step uses up effort and no other step but a new call adds any. */
  lemma EffortDecreases(s: State, step: Step)
    requires Reachable(s) && Enabled(s, step)
    ensures Productive(s, step) ==> Effort(Apply(s, step)) < Effort(s)
    ensures !step.PushCall? && !step.PopCall? ==> Effort(Apply(s, step)) <= Effort(s)
    ensures Effort(Apply(s, step)) <= Effort(s) + s.capacity + 3
  {
    hide Reachable, MayLoad, ProcessMessage, FreeSize, StoreAddress, LoadAddress, Record, Missing, HeaderValue;
    match step
    case PushStore(k) => MissingDecreases(HEADER + |s.producer.payload|, s.producer.stored, k);
    case PopLoad(k, _) => MissingDecreases(s.consumer.size, s.consumer.loaded, k);
    case PopHeader(header) => HeaderWithinCapacity(s, header);
    case _ =>
  }

  lemma HeaderWithinCapacity(s: State, header: seq<Byte>)
    requires Reachable(s) && Enabled(s, PopHeader(header))
    ensures HeaderValue(header) <= s.capacity
  {
    hide Reachable, Encodes, PendingStored, ProducerOk, Delivered, Start, MayLoad, HeaderValue;
    ReachableInv(s);
    LoadedHeader(s, header);
  }

  /** The calls of `Push` and `Pop` among the steps. */
  function Calls(steps: seq<Step>): nat {
    if steps == [] then 0
    else (if steps[0].PushCall? || steps[0].PopCall? then 1 else 0) + Calls(steps[1..])
  }

  /** How many steps of a run advance their thread. */
  function ProductiveSteps(s: State, steps: seq<Step>): nat
    requires IsRun(s, steps)
    decreases |steps|
  {
    if steps == [] then 0
    else (if Productive(s, steps[0]) then 1 else 0) + ProductiveSteps(Apply(s, steps[0]), steps[1..])
  }

  lemma OneMoreCall(allowance: nat, calls: nat)
    ensures allowance * (1 + calls) == allowance + allowance * calls
  {
  }

  /** Over a whole run, whatever its interleaving, the steps that advance a thread number at
      most the effort at its start plus the capacity and 3 for each call made: no operation
      copies or publishes forever. */
  lemma {:induction false} EffortBoundsRun(s: State, steps: seq<Step>)
    requires Reachable(s) && IsRun(s, steps)
    ensures ProductiveSteps(s, steps) + Effort(Final(s, steps)) <= Effort(s) + (s.capacity + 3) * Calls(steps)
    decreases |steps|
  {
    hide Reachable, Enabled, Apply, Productive, Effort;
    if steps != [] {
      var u := Apply(s, steps[0]);
      SameCapacity(s, steps[0]);
      EffortDecreases(s, steps[0]);
      if steps[0].PushCall? || steps[0].PopCall? {
        CallsAreNotProductive(s, steps[0]);
      }
      ReachableStep(s, steps[0]);
      EffortBoundsRun(u, steps[1..]);
      OneMoreCall(s.capacity + 3, Calls(steps[1..]));
    }
  }

  lemma SameCapacity(s: State, step: Step)
    requires Enabled(s, step)
    ensures Apply(s, step).capacity == s.capacity
  {
  }

  lemma CallsAreNotProductive(s: State, step: Step)
    requires Enabled(s, step) && (step.PushCall? || step.PopCall?)
    ensures !Productive(s, step)
  {
  }
}
