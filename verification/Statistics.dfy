/** Tick storage, and the pairing of the two tick lists into shipping times. */
module Statistics {
  import opened Quantiles
  import opened Wrappers
  import Sequences

  /** Shipping `i` is the receive tick minus the send tick of message `i`. */
  function Shippings(producer: seq<int>, consumer: seq<int>): (r: seq<int>)
    ensures |r| == if |producer| <= |consumer| then |producer| else |consumer|
    ensures forall i :: 0 <= i < |r| ==> r[i] == consumer[i] - producer[i]
  {
    if producer == [] || consumer == [] then []
    else [consumer[0] - producer[0]] + Shippings(producer[1..], consumer[1..])
  }

  /** The last receive tick minus the first send tick, where there are such. */
  function TotalTime(producer: seq<int>, consumer: seq<int>): (total: Option<int>)
    ensures total == None <==> producer == [] || consumer == []
  {
    if producer == [] || consumer == [] then None
    else Some(consumer[|consumer| - 1] - producer[0])
  }

  /** Ticks of one shared clock: both lists rise, and no message is received before it was sent. */
  predicate OneClock(producer: seq<int>, consumer: seq<int>) {
    && |producer| == |consumer|
    && Sorted(producer) && Sorted(consumer)
    && forall i :: 0 <= i < |producer| ==> producer[i] <= consumer[i]
  }

  /** With one clock every shipping is non-negative and at most the total time. */
  lemma ShippingBounds(producer: seq<int>, consumer: seq<int>, i: nat)
    requires OneClock(producer, consumer) && i < |producer|
    ensures 0 <= Shippings(producer, consumer)[i] <= consumer[|consumer| - 1] - producer[0]
  {
    assert i == 0 || producer[0] <= producer[i];
    assert i == |consumer| - 1 || consumer[i] <= consumer[|consumer| - 1];
  }

  /** Hence so is every quantile that is reported. */
  lemma QuantileBounds(producer: seq<int>, consumer: seq<int>, alpha: real)
    requires OneClock(producer, consumer) && 0 < |producer| && InUnit(alpha)
    ensures 0 <= Quantile(Shippings(producer, consumer), alpha) <= consumer[|consumer| - 1] - producer[0]
  {
    var s := Shippings(producer, consumer);
    GetEnds(s);
    GetMonotone(s, 0.0, alpha);
    GetMonotone(s, alpha, 1.0);
    var i :| 0 <= i < |s| && s[i] == Quantile(s, 0.0);
    var j :| 0 <= j < |s| && s[j] == Quantile(s, 1.0);
    ShippingBounds(producer, consumer, i);
    ShippingBounds(producer, consumer, j);
  }

  class Measurer {
    var measurements: seq<int>
    var capacity: nat
    var cursor: nat

    ghost predicate Valid()
      reads this
    {
      cursor <= |measurements| <= capacity
    }

    constructor (chunksTotalCount: nat)
      ensures Valid() && measurements == [] && capacity == chunksTotalCount
    {
      measurements := [];
      capacity := chunksTotalCount;
      cursor := 0;
    }

    /** Appends; a full list is given some larger capacity. */
    method PushBack(tick: int)
      requires Valid()
      modifies `measurements, `capacity
      ensures Valid() && measurements == old(measurements) + [tick]
      ensures |old(measurements)| < old(capacity) ==> capacity == old(capacity)
    {
      measurements := measurements + [tick];
      if capacity < |measurements| {
        var larger: nat :| |measurements| <= larger;
        capacity := larger;
      }
    }

    /** `now` is the reading of the clock. */
    method Tick(now: int)
      requires Valid()
      modifies `measurements, `capacity
      ensures Valid() && measurements == old(measurements) + [now]
      ensures |old(measurements)| < old(capacity) ==> capacity == old(capacity)
    {
      PushBack(now);
    }

    /** The element read when the list is empty does not exist. */
    method FirstTick() returns (tick: Option<int>)
      ensures tick == if measurements == [] then None else Some(measurements[0])
    {
      if measurements == [] {
        return None;
      }
      tick := Some(measurements[0]);
    }

    method LastTick() returns (tick: Option<int>)
      ensures tick == if measurements == [] then None else Some(measurements[|measurements| - 1])
    {
      if measurements == [] {
        return None;
      }
      tick := Some(measurements[|measurements| - 1]);
    }

    method ToFirst()
      modifies `cursor
      ensures Valid() <==> old(|measurements| <= capacity)
      ensures cursor == 0
    {
      cursor := 0;
    }

    method HasNext() returns (more: bool)
      requires Valid()
      ensures more <==> cursor < |measurements|
    {
      more := cursor != |measurements|;
    }

    method Next() returns (tick: int)
      requires Valid() && cursor < |measurements|
      modifies `cursor
      ensures Valid() && tick == measurements[old(cursor)] && cursor == old(cursor) + 1
    {
      tick := measurements[cursor];
      cursor := cursor + 1;
    }

    method Count() returns (n: nat)
      ensures n == |measurements|
    {
      n := |measurements|;
    }

    method IsFull() returns (full: bool)
      requires Valid()
      ensures full <==> |measurements| == capacity
    {
      full := |measurements| == capacity;
    }
  }

  /** Pairs the two tick lists. The total time is `None` where the source reads the first
      or the last element of an empty list. */
  method Process(producer: Measurer, consumer: Measurer) returns (shippings: seq<int>, totalTime: Option<int>)
    requires producer != consumer && producer.Valid() && consumer.Valid()
    modifies producer`cursor, consumer`cursor
    ensures producer.Valid() && consumer.Valid()
    ensures shippings == Shippings(producer.measurements, consumer.measurements)
    ensures totalTime == TotalTime(producer.measurements, consumer.measurements)
    ensures producer.measurements != [] && consumer.measurements != [] ==>
              totalTime == Some(consumer.measurements[|consumer.measurements| - 1] - producer.measurements[0])
    ensures producer.measurements == [] || consumer.measurements == [] ==> totalTime == None
  {
    hide Shippings;
    ghost var all := Shippings(producer.measurements, consumer.measurements);
    shippings := [];
    producer.ToFirst();
    consumer.ToFirst();
    var producerHasNext := producer.HasNext();
    var consumerHasNext := consumer.HasNext();
    while producerHasNext && consumerHasNext
      invariant producer.Valid() && consumer.Valid()
      invariant |shippings| == producer.cursor == consumer.cursor
      invariant producerHasNext <==> producer.cursor < |producer.measurements|
      invariant consumerHasNext <==> consumer.cursor < |consumer.measurements|
      invariant producer.cursor <= |all| && shippings == all[..producer.cursor]
      decreases |producer.measurements| - producer.cursor
    {
      Sequences.TakeOneMore(all, producer.cursor);
      var received := consumer.Next();
      var sent := producer.Next();
      shippings := shippings + [received - sent];
      producerHasNext := producer.HasNext();
      consumerHasNext := consumer.HasNext();
    }
    var last := consumer.LastTick();
    var first := producer.FirstTick();
    totalTime := if last == None || first == None then None else Some(last.value - first.value);
  }
}
