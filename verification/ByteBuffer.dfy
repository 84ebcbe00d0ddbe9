/** The fixed-size message buffer with separate read and write cursors. */
module ByteBuffer {
  import opened Bytes

  const BUFFER_CAPACITY: nat := 10000

  /** `s` with the bytes from `at` on replaced. */
  function Overwritten(s: seq<Byte>, at: nat, bytes: seq<Byte>): (r: seq<Byte>)
    requires at + |bytes| <= |s|
    ensures |r| == |s|
  {
    s[..at] + bytes + s[at + |bytes|..]
  }

  lemma OverwrittenTwice(s: seq<Byte>, at: nat, a: seq<Byte>, b: seq<Byte>)
    requires at + |a| + |b| <= |s|
    ensures Overwritten(Overwritten(s, at, a), at + |a|, b) == Overwritten(s, at, a + b)
    ensures Overwritten(s, at, []) == s
  {
  }

  class Buffer {
    const data: array<Byte>
    var readPtr: nat
    var writePtr: nat

    ghost predicate Valid()
      reads this
    {
      data.Length == BUFFER_CAPACITY && readPtr <= BUFFER_CAPACITY && writePtr <= BUFFER_CAPACITY
    }

    constructor ()
      ensures Valid() && fresh(data) && data.Length == 10000 && readPtr == 0 && writePtr == 0
    {
      data := new Byte[BUFFER_CAPACITY];
      readPtr := 0;
      writePtr := 0;
    }

    method Reset()
      requires Valid()
      modifies `readPtr, `writePtr
      ensures Valid() && readPtr == 0 && writePtr == 0
    {
      readPtr := 0;
      writePtr := 0;
    }

    /** Throws (`ok` is false), changing nothing, exactly when the bytes do not fit behind
        the write cursor. */
    method WriteBytes(bytes: seq<Byte>) returns (ok: bool)
      requires Valid()
      modifies `writePtr, data
      ensures Valid()
      ensures ok <==> old(writePtr) + |bytes| <= BUFFER_CAPACITY
      ensures ok ==> writePtr == old(writePtr) + |bytes| && data[..] == Overwritten(old(data[..]), old(writePtr), bytes)
      ensures ok ==> data[old(writePtr)..writePtr] == bytes
      ensures data[..old(writePtr)] == old(data[..])[..old(writePtr)] && data[writePtr..] == old(data[..])[writePtr..]
      ensures !ok ==> writePtr == old(writePtr) && data[..] == old(data[..])
    {
      if writePtr + |bytes| > BUFFER_CAPACITY {
        return false;
      }
      forall k | 0 <= k < |bytes| {
        data[writePtr + k] := bytes[k];
      }
      writePtr := writePtr + |bytes|;
      ok := true;
      assert data[..] == Overwritten(old(data[..]), old(writePtr), bytes);
    }

    /** Reads as many bytes as `target` holds. The bound is the end of the buffer, not the
        write cursor. */
    method ReadBytes(target: array<Byte>) returns (ok: bool)
      requires Valid() && target != data
      modifies `readPtr, target
      ensures Valid()
      ensures ok <==> old(readPtr) + target.Length <= BUFFER_CAPACITY
      ensures ok ==> readPtr == old(readPtr) + target.Length && target[..] == data[old(readPtr)..readPtr]
      ensures !ok ==> readPtr == old(readPtr) && target[..] == old(target[..])
    {
      if readPtr + target.Length > BUFFER_CAPACITY {
        return false;
      }
      forall k | 0 <= k < target.Length {
        target[k] := data[readPtr + k];
      }
      readPtr := readPtr + target.Length;
      ok := true;
    }

    method WriteBytesInReverseOrder(bytes: seq<Byte>) returns (ok: bool)
      requires Valid()
      modifies `writePtr, data
      ensures Valid()
      ensures ok <==> old(writePtr) + |bytes| <= BUFFER_CAPACITY
      ensures ok ==> writePtr == old(writePtr) + |bytes| && data[..] == Overwritten(old(data[..]), old(writePtr), Reverse(bytes))
      ensures ok ==> data[old(writePtr)..writePtr] == Reverse(bytes)
      ensures data[..old(writePtr)] == old(data[..])[..old(writePtr)] && data[writePtr..] == old(data[..])[writePtr..]
      ensures !ok ==> writePtr == old(writePtr) && data[..] == old(data[..])
    {
      if writePtr + |bytes| > BUFFER_CAPACITY {
        return false;
      }
      var bufPtr := writePtr;
      var dataPtr := |bytes| - 1;
      var size := |bytes|;
      while size != 0
        invariant 0 <= size <= |bytes| && writePtr == old(writePtr)
        invariant bufPtr == writePtr + |bytes| - size && dataPtr == size - 1
        invariant forall k :: 0 <= k < |bytes| - size ==> data[writePtr + k] == Reverse(bytes)[k]
        invariant forall i :: 0 <= i < data.Length && !(writePtr <= i < bufPtr) ==> data[i] == old(data[i])
      {
        size := size - 1;
        data[bufPtr] := bytes[dataPtr];
        bufPtr := bufPtr + 1;
        dataPtr := dataPtr - 1;
      }
      writePtr := bufPtr;
      ok := true;
      assert data[..] == Overwritten(old(data[..]), old(writePtr), Reverse(bytes));
    }

    method ReadBytesInReverseOrder(target: array<Byte>) returns (ok: bool)
      requires Valid() && target != data
      modifies `readPtr, target
      ensures Valid()
      ensures ok <==> old(readPtr) + target.Length <= BUFFER_CAPACITY
      ensures ok ==> readPtr == old(readPtr) + target.Length && target[..] == Reverse(data[old(readPtr)..readPtr])
      ensures !ok ==> readPtr == old(readPtr) && target[..] == old(target[..])
    {
      if readPtr + target.Length > BUFFER_CAPACITY {
        return false;
      }
      var bufPtr := readPtr;
      var dataPtr := target.Length - 1;
      var size := target.Length;
      while size != 0
        invariant 0 <= size <= target.Length && readPtr == old(readPtr)
        invariant bufPtr == readPtr + target.Length - size && dataPtr == size - 1
        invariant forall k :: size <= k < target.Length ==> target[k] == data[readPtr + target.Length - 1 - k]
        invariant data[..] == old(data[..])
      {
        size := size - 1;
        target[dataPtr] := data[bufPtr];
        dataPtr := dataPtr - 1;
        bufPtr := bufPtr + 1;
      }
      readPtr := bufPtr;
      ok := true;
      assert target[..] == Reverse(data[old(readPtr)..readPtr]);
    }
  }
}
