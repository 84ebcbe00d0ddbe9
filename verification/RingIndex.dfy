/** The (value, version) index of the ring and the index arithmetic of
    `ProcessMessage` and `Push`, written with the wrapping and masking operations
    of the source and related to an unbounded byte position. */
module RingIndex {
  import opened Words

  const HEADER: nat := 4

  datatype Index = Index(value: Word, version: Word)

  /** What `ProcessMessage` computes: how many payload bytes go before the end of
      the array, how many wrap to its start, and the advanced index. */
  datatype Processed = Processed(fit: Word, overflow: Word, index: Index)

  datatype Aligned = AlignedTo(capacity: Word) | Overflowed

  function AlignUp(value: Word): (r: Word)
    ensures value <= WORD_LIMIT - 4 ==> r == Up4(value)
    ensures WORD_LIMIT - 4 < value ==> r == 0
  {
    ClearLowBits(Sub(Add(value, HEADER), 1));
    RoundUp(value);
    And(Sub(Add(value, HEADER), 1), Not(HEADER - 1))
  }

  lemma RoundUp(n: nat)
    ensures n + 3 - (n + 3) % 4 == Up4(n)
  {
    hide Up4;
    Up4Aligned(n);
    Multiples4(n + 3 - (n + 3) % 4, Up4(n));
  }

  function AlignCapacity(capacity: Word): Aligned {
    if AlignUp(capacity) < capacity then Overflowed else AlignedTo(AlignUp(capacity))
  }

  function ProcessMessage(index: Index, payloadSize: Word, capacity: Word): Processed {
    var payloadStart := Add(index.value, HEADER);
    var free := Sub(capacity, payloadStart);
    var overflow := Masked(free < payloadSize, Sub(payloadSize, free));
    var fit := Sub(payloadSize, overflow);
    var fitAligned := AlignUp(fit);
    var version := Add(index.version, if fitAligned == free then 1 else 0);
    var value := Add(Masked(fitAligned != free, Add(payloadStart, fitAligned)), AlignUp(overflow));
    Processed(fit, overflow, Index(value, version))
  }

  /** Every assertion executed by one call of `ProcessMessage`, including those
      inside its two alignment calls. */
  predicate ProcessMessageAsserts(index: Index, payloadSize: Word, capacity: Word) {
    var p := ProcessMessage(index, payloadSize, capacity);
    var payloadStart := Add(index.value, HEADER);
    var free := Sub(capacity, payloadStart);
    && payloadStart <= capacity
    && free <= capacity
    && p.overflow <= payloadSize
    && p.fit <= AlignUp(p.fit) <= free
    && p.overflow <= AlignUp(p.overflow)
    && p.index.value < capacity
  }

  /** The free size `Push` computes from its own index and an observed consumer index. */
  function FreeSize(producer: Index, consumer: Index, capacity: Word): Word {
    Add(Masked(consumer.version == producer.version,
               Sub(capacity, Sub(producer.value, consumer.value))),
        Masked(producer.version != consumer.version,
               Sub(consumer.value, producer.value)))
  }

  /** The assertions in the waiting loop of `Push`. */
  predicate PushAsserts(producer: Index, consumer: Index, capacity: Word) {
    && consumer.value < capacity
    && (|| (consumer.version == producer.version && consumer.value <= producer.value)
        || (consumer.version != producer.version && producer.value <= consumer.value))
    && FreeSize(producer, consumer, capacity) <= capacity
  }

  /** Where byte `k` of a record lies: header and the fitting part of the payload from
      the index on, the overflowed part from the start of the array. */
  function RecordAddress(index: Index, fit: nat, k: nat): nat {
    if k < HEADER + fit then index.value + k else k - HEADER - fit
  }

  // ----- plain integer meaning -----

  /** The least multiple of the header size that is at least `n`. */
  function Up4(n: nat): (r: nat)
    ensures n <= r < n + 4
  {
    if n == 0 then 0 else if n < 4 then 4 else 4 + Up4(n - 4)
  }

  lemma Up4Zero()
    ensures Up4(0) == 0
  {
  }

  lemma {:induction false} Up4Aligned(n: nat)
    ensures Up4(n) % 4 == 0
  {
    if n >= 4 {
      Up4Aligned(n - 4);
    }
  }

  function RecordSize(payloadSize: nat): nat { HEADER + Up4(payloadSize) }

  predicate ValidCapacity(capacity: nat) { capacity % 4 == 0 && capacity < WORD_LIMIT }

  /** The array offset of an unbounded position. */
  function Offset(capacity: nat, position: nat): (r: nat)
    requires 0 < capacity
    ensures r < capacity
  {
    if position < capacity then position else Offset(capacity, position - capacity)
  }

  /** The number of completed laps, counted in a word that wraps. */
  function Laps(capacity: nat, position: nat): Word
    requires 0 < capacity
  {
    if position < capacity then 0 else Add(Laps(capacity, position - capacity), 1)
  }

  /** The index that stands for an unbounded position. */
  function IndexOf(capacity: nat, position: nat): Index
    requires ValidCapacity(capacity)
  {
    if capacity == 0 then Index(0, 0) else Index(Offset(capacity, position), Laps(capacity, position))
  }

  /** `IndexOf` is the position modulo the capacity and the lap count modulo 2^32. */
  lemma {:induction false} IndexOfMeaning(capacity: nat, position: nat)
    requires ValidCapacity(capacity) && 0 < capacity
    ensures IndexOf(capacity, position) == Index(position % capacity, position / capacity % WORD_LIMIT)
  {
    hide Add;
    if position >= capacity {
      IndexOfMeaning(capacity, position - capacity);
      NextLap(capacity, position - capacity);
      WordMod((position - capacity) / capacity);
    } else {
      DivMod(capacity, 0, position);
    }
  }

  lemma NextLap(capacity: nat, p: nat)
    requires 0 < capacity
    ensures (p + capacity) / capacity == p / capacity + 1 && (p + capacity) % capacity == p % capacity
  {
    var lap, offset := p / capacity, p % capacity;
    assert lap * capacity + offset == p;
    assert (lap + 1) * capacity + offset == p + capacity;
    DivMod(capacity, lap + 1, offset);
  }

  lemma WordMod(n: nat)
    ensures (n + 1) % WORD_LIMIT == Add(n % WORD_LIMIT, 1)
  {
  }

  /** The assertion inside the alignment holds exactly up to 2^32-4. */
  lemma AlignAssertExactly(value: Word)
    ensures value <= AlignUp(value) <==> value <= WORD_LIMIT - 4
  {
    hide Up4;
    if value <= WORD_LIMIT - 4 {
      assert AlignUp(value) == Up4(value);
    }
  }

  /** `AlignCapacity` throws exactly above 2^32-4; otherwise it returns the least
      multiple of 4 not below its argument. So the constructor's test accepts exactly
      the multiples of 4. */
  lemma AlignCapacityMeaning(capacity: Word)
    ensures AlignCapacity(capacity).Overflowed? <==> WORD_LIMIT - 4 < capacity
    ensures AlignCapacity(capacity).AlignedTo? ==>
              var aligned := AlignCapacity(capacity).capacity;
              && capacity <= aligned && aligned % 4 == 0
              && forall m: nat :: capacity <= m && m % 4 == 0 ==> aligned <= m
    ensures AlignCapacity(capacity) == AlignedTo(capacity) <==> ValidCapacity(capacity)
  {
    hide Up4, AlignUp;
    var aligned := AlignUp(capacity);
    if capacity <= WORD_LIMIT - 4 {
      Up4Aligned(capacity);
      forall m: nat | capacity <= m && m % 4 == 0 ensures aligned <= m {
        LeastMultiple(capacity, m);
      }
    }
    ValidIsAligned(capacity);
  }

  lemma LeastMultiple(n: nat, m: nat)
    requires n <= m && m % 4 == 0
    ensures Up4(n) <= m
  {
    hide Up4;
    Up4Aligned(n);
    if m < Up4(n) {
      Multiples4(Up4(n), m);
    }
  }

  lemma ValidIsAligned(capacity: Word)
    ensures ValidCapacity(capacity) <==> capacity <= WORD_LIMIT - 4 && Up4(capacity) == capacity
  {
    hide Up4;
    Up4Aligned(capacity);
    if capacity % 4 == 0 {
      LeastMultiple(capacity, capacity);
      AlignedBelow(capacity);
    }
  }

  lemma AlignedBelow(capacity: Word)
    requires capacity % 4 == 0
    ensures capacity <= WORD_LIMIT - 4
  {
    var q := capacity / 4;
    assert capacity == 4 * q;
  }

  lemma DivMod(capacity: nat, lap: nat, offset: nat)
    requires offset < capacity
    ensures (lap * capacity + offset) / capacity == lap
    ensures (lap * capacity + offset) % capacity == offset
  {
    var p := lap * capacity + offset;
    var d := p / capacity - lap;
    assert d * capacity + p % capacity == offset;
    assert d == 0;
  }

  /** A step of at most a lap stays in the lap or enters the next one. */
  lemma {:induction false} OffsetStep(capacity: nat, position: nat, d: nat)
    requires 0 < capacity && d <= capacity
    ensures var v := Offset(capacity, position);
            && Offset(capacity, position + d) == (if v + d < capacity then v + d else v + d - capacity)
            && Laps(capacity, position + d) ==
               (if v + d < capacity then Laps(capacity, position) else Add(Laps(capacity, position), 1))
  {
    if position >= capacity {
      OffsetStep(capacity, position - capacity, d);
    } else if position + d >= capacity {
      assert Offset(capacity, position + d - capacity) == position + d - capacity;
    }
  }

  lemma {:induction false} OffsetAligned(capacity: nat, position: nat)
    requires 0 < capacity && capacity % 4 == 0 && position % 4 == 0
    ensures Offset(capacity, position) % 4 == 0
  {
    if position >= capacity {
      OffsetAligned(capacity, position - capacity);
    }
  }

  /** Two positions less than a lap apart never share an address. */
  lemma NoAlias(capacity: nat, p: nat, q: nat)
    requires 0 < capacity && p < q < p + capacity
    ensures Offset(capacity, p) != Offset(capacity, q)
  {
    hide Offset, Laps;
    OffsetStep(capacity, p, q - p);
  }

  /** A header at an aligned offset below an aligned capacity does not straddle the end. */
  lemma HeaderFits(value: nat, capacity: nat)
    requires value % 4 == 0 && capacity % 4 == 0 && value < capacity
    ensures value + HEADER <= capacity && (capacity - value - HEADER) % 4 == 0
  {
    var v, c := value / 4, capacity / 4;
    assert value == 4 * v && capacity == 4 * c;
  }

  lemma SumAligned(a: nat, b: nat)
    requires a % 4 == 0 && b % 4 == 0
    ensures (a + b) % 4 == 0
  {
  }

  /** `ProcessMessage` as a plain case split on integers. */
  function ProcessPlain(index: Index, payloadSize: Word, capacity: Word): Processed
    requires index.value + HEADER <= capacity && HEADER + payloadSize <= capacity
    requires ValidCapacity(capacity) && index.value % 4 == 0
  {
    var free := capacity - index.value - HEADER;
    var fit := if free < payloadSize then free else payloadSize;
    var overflow := payloadSize - fit;
    Processed(fit, overflow,
      if Up4(fit) == free then Index(Up4(overflow), Add(index.version, 1))
      else Index(index.value + HEADER + Up4(fit), index.version))
  }

  /** The masked wrapping expressions of `ProcessMessage` mean the plain case split. */
  lemma ProcessMessagePlain(index: Index, payloadSize: Word, capacity: Word)
    requires ValidCapacity(capacity) && index.value % 4 == 0
    requires index.value + HEADER <= capacity && HEADER + payloadSize <= capacity
    ensures ProcessMessage(index, payloadSize, capacity) == ProcessPlain(index, payloadSize, capacity)
  {
    hide Up4;
    var free := capacity - index.value - HEADER;
    var fit := if free < payloadSize then free else payloadSize;
    Up4Zero();
    assert Add(index.value, HEADER) == index.value + HEADER;
    assert Sub(capacity, index.value + HEADER) == free;
    assert Masked(free < payloadSize, Sub(payloadSize, free)) == payloadSize - fit;
    AdmissionIsAligned(HEADER + free, fit);
  }

  /** The split of the payload and of the aligned payload at the end of the array. */
  lemma PlainParts(index: Index, payloadSize: Word, capacity: Word)
    requires index.value + HEADER <= capacity && HEADER + payloadSize <= capacity
    requires ValidCapacity(capacity) && index.value % 4 == 0
    ensures var p, free := ProcessPlain(index, payloadSize, capacity), capacity - index.value - HEADER;
            && p.fit + p.overflow == payloadSize
            && p.fit <= Up4(p.fit) <= free && Up4(p.overflow) <= capacity
  {
    hide Up4;
    var free := capacity - index.value - HEADER;
    HeaderFits(index.value, capacity);
    AdmissionIsAligned(HEADER + free, if free < payloadSize then free else payloadSize);
    AdmissionIsAligned(capacity, payloadSize - (if free < payloadSize then free else payloadSize));
  }

  /** No assertion inside `ProcessMessage` fails: in particular the header does not
      straddle the end of the array and the new index stays below the capacity. */
  lemma ProcessMessageAssertsHold(index: Index, payloadSize: Word, capacity: Word)
    requires ValidCapacity(capacity) && index.value % 4 == 0
    requires index.value < capacity && HEADER + payloadSize <= capacity
    ensures ProcessMessageAsserts(index, payloadSize, capacity)
  {
    hide ProcessMessage, ProcessPlain, Up4;
    HeaderFits(index.value, capacity);
    ProcessMessagePlain(index, payloadSize, capacity);
    PlainDistance(index, payloadSize, capacity);
    PlainParts(index, payloadSize, capacity);
    var p := ProcessPlain(index, payloadSize, capacity);
    assert AlignUp(p.fit) == Up4(p.fit) && AlignUp(p.overflow) == Up4(p.overflow);
  }

  /** Partner of `ProcessMessage` on unbounded positions. Whatever the lap, it advances
      the position by the aligned record size, none of its assertions fails, and the
      address of every record byte is the offset of its position. */
  lemma ProcessMessageAdvances(capacity: Word, position: nat, payloadSize: Word)
    requires ValidCapacity(capacity) && position % 4 == 0 && HEADER + payloadSize <= capacity
    ensures var index := IndexOf(capacity, position);
            var p := ProcessMessage(index, payloadSize, capacity);
            && ProcessMessageAsserts(index, payloadSize, capacity)
            && p.fit + p.overflow == payloadSize
            && p.index == IndexOf(capacity, position + RecordSize(payloadSize))
            && forall k :: 0 <= k < HEADER + payloadSize ==>
                 RecordAddress(index, p.fit, k) == Offset(capacity, position + k)
  {
    hide Offset, Laps, ProcessMessage, ProcessMessageAsserts, Up4;
    var index := IndexOf(capacity, position);
    OffsetAligned(capacity, position);
    ProcessMessageAssertsHold(index, payloadSize, capacity);
    AdvancedIndex(capacity, position, payloadSize);
    RecordAddresses(capacity, position, payloadSize);
  }

  lemma AdvancedIndex(capacity: Word, position: nat, payloadSize: Word)
    requires ValidCapacity(capacity) && position % 4 == 0 && HEADER + payloadSize <= capacity
    ensures ProcessMessage(IndexOf(capacity, position), payloadSize, capacity).index ==
            IndexOf(capacity, position + RecordSize(payloadSize))
  {
    hide Offset, Laps, ProcessMessage, ProcessPlain, Up4;
    OffsetAligned(capacity, position);
    var index := IndexOf(capacity, position);
    HeaderFits(index.value, capacity);
    ProcessMessagePlain(index, payloadSize, capacity);
    PlainDistance(index, payloadSize, capacity);
    assert RecordSize(payloadSize) <= capacity by {
      AdmissionIsAligned(capacity, payloadSize);
    }
    StepsTo(capacity, position, RecordSize(payloadSize));
  }

  lemma StepsTo(capacity: Word, position: nat, d: nat)
    requires ValidCapacity(capacity) && 0 < capacity && d <= capacity
    ensures var index := IndexOf(capacity, position);
            IndexOf(capacity, position + d) ==
            if index.value + d < capacity then Index(index.value + d, index.version)
            else Index(index.value + d - capacity, Add(index.version, 1))
  {
    hide Offset, Laps;
    OffsetStep(capacity, position, d);
  }

  /** The plain index moves by the record size, minus a lap when the version is bumped. */
  lemma PlainDistance(index: Index, payloadSize: Word, capacity: Word)
    requires index.value + HEADER <= capacity && HEADER + payloadSize <= capacity
    requires ValidCapacity(capacity) && index.value % 4 == 0
    ensures var p := ProcessPlain(index, payloadSize, capacity).index;
            var moved := index.value + RecordSize(payloadSize);
            if moved < capacity then p == Index(moved, index.version)
            else p == Index(moved - capacity, Add(index.version, 1))
  {
    hide Up4;
    var free := capacity - index.value - HEADER;
    HeaderFits(index.value, capacity);
    Up4Zero();
    if free < payloadSize {
      Up4Add(free, payloadSize - free);
    } else {
      assert Up4(payloadSize) <= free by {
        AdmissionIsAligned(HEADER + free, payloadSize);
      }
    }
  }

  lemma Up4Add(a: nat, b: nat)
    requires a % 4 == 0
    ensures Up4(a + b) == a + Up4(b) && Up4(a) == a
  {
    hide Up4;
    Up4Aligned(a + b);
    Up4Aligned(b);
    Up4Aligned(a);
    SumAligned(a, Up4(b));
    Multiples4(Up4(a + b), a + Up4(b));
    Multiples4(Up4(a), a);
  }

  lemma Multiples4(a: nat, b: nat)
    requires a % 4 == 0 && b % 4 == 0 && a < b + 4 && b < a + 4
    ensures a == b
  {
  }

  lemma RecordAddresses(capacity: Word, position: nat, payloadSize: Word)
    requires ValidCapacity(capacity) && position % 4 == 0 && HEADER + payloadSize <= capacity
    ensures var index := IndexOf(capacity, position);
            var p := ProcessMessage(index, payloadSize, capacity);
            && p.fit + p.overflow == payloadSize
            && forall k :: 0 <= k < HEADER + payloadSize ==>
                 RecordAddress(index, p.fit, k) == Offset(capacity, position + k)
  {
    hide Offset, Laps, ProcessMessage, Up4;
    var index := IndexOf(capacity, position);
    OffsetAligned(capacity, position);
    HeaderFits(index.value, capacity);
    ProcessMessagePlain(index, payloadSize, capacity);
    var fit := ProcessMessage(index, payloadSize, capacity).fit;
    forall k | 0 <= k < HEADER + payloadSize
      ensures RecordAddress(index, fit, k) == Offset(capacity, position + k)
    {
      OffsetStep(capacity, position, k);
    }
  }

  /** The masked free-size expression means the plain case split on the versions. */
  lemma FreeSizePlain(producer: Index, consumer: Index, capacity: Word, free: Word)
    requires free <= capacity
    requires if consumer.version == producer.version
             then consumer.value + (capacity - free) == producer.value
             else producer.value + free == consumer.value
    requires consumer.value < capacity
    ensures FreeSize(producer, consumer, capacity) == free
    ensures PushAsserts(producer, consumer, capacity)
  {
  }

  /** Partner of the masked free-size expression: whenever the two positions are at most
      a capacity apart, it is the capacity minus their distance and the loop's assertions
      hold. */
  lemma FreeSizeMeaning(capacity: Word, producer: nat, consumer: nat)
    requires ValidCapacity(capacity) && 0 < capacity
    requires consumer <= producer <= consumer + capacity
    ensures var p, c := IndexOf(capacity, producer), IndexOf(capacity, consumer);
            && FreeSize(p, c, capacity) == capacity - (producer - consumer)
            && PushAsserts(p, c, capacity)
  {
    hide Offset, Laps;
    var free := capacity - (producer - consumer);
    FreeDistance(capacity, producer, consumer, free);
    FreeSizePlain(IndexOf(capacity, producer), IndexOf(capacity, consumer), capacity, free);
  }

  /** The admission test on the unaligned record size accepts exactly the records whose
      aligned size fits into a free size that is a multiple of 4. */
  lemma AdmissionIsAligned(free: nat, payloadSize: nat)
    requires free % 4 == 0
    ensures HEADER + payloadSize <= free <==> RecordSize(payloadSize) <= free
  {
    hide Up4;
    Up4Aligned(payloadSize);
    if HEADER + payloadSize <= free < RecordSize(payloadSize) {
      Multiples4(RecordSize(payloadSize), free);
    }
  }

  lemma FreeDistance(capacity: Word, producer: nat, consumer: nat, free: nat)
    requires ValidCapacity(capacity) && 0 < capacity
    requires consumer <= producer && producer - consumer + free == capacity
    ensures var p, c := IndexOf(capacity, producer), IndexOf(capacity, consumer);
            if c.version == p.version then c.value + (capacity - free) == p.value
            else p.value + free == c.value
  {
    hide Offset, Laps;
    OffsetStep(capacity, consumer, producer - consumer);
  }

  /** Comparing both halves of the index separates the empty ring from the full one,
      also after the version has wrapped. */
  lemma EqualIndexIsEqualPosition(capacity: Word, p: nat, q: nat)
    requires ValidCapacity(capacity) && p <= q <= p + capacity
    ensures IndexOf(capacity, p) == IndexOf(capacity, q) <==> p == q
  {
    hide Offset, Laps;
    if 0 < capacity {
      OffsetStep(capacity, p, q - p);
    }
  }
}
