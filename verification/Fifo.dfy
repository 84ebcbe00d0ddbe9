/** A bounded first-in first-out channel of byte messages. A message occupies its
    aligned record, as in the ring; the channel blocks while a record does not fit. */
module Fifo {
  import opened Bytes
  import opened RingIndex

  type Message = seq<Byte>

  /** Bytes occupied by a queue of messages. */
  function Total(queue: seq<Message>): nat {
    if queue == [] then 0 else RecordSize(|queue[0]|) + Total(queue[1..])
  }

  predicate Admits(capacity: nat, queue: seq<Message>, m: Message) {
    Total(queue) + RecordSize(|m|) <= capacity
  }

  /** One step of the channel: nothing, one message appended while it fits, or the oldest
      message removed. */
  predicate FifoStep(capacity: nat, before: seq<Message>, after: seq<Message>) {
    || after == before
    || (|after| == |before| + 1 && after[..|before|] == before && Admits(capacity, before, after[|before|]))
    || (|before| > 0 && after == before[1..])
  }
}
