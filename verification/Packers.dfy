/** The packers acting on a buffer through its cursors, proved against the wire format. */
module Packers {
  import opened Wrappers
  import opened Bytes
  import opened ByteBuffer
  import opened PackerSpec

  /** The outcome of appending `bytes` at a write cursor: all or an error, never a byte
      before the cursor. */
  twostate predicate Appends(buffer: Buffer, bytes: seq<Byte>, ok: bool)
    requires old(buffer.Valid()) && buffer.Valid()
    reads buffer, buffer.data
  {
    && (ok <==> old(buffer.writePtr) + |bytes| <= BUFFER_CAPACITY)
    && (ok ==> buffer.writePtr == old(buffer.writePtr) + |bytes|)
    && (ok ==> buffer.data[..] == Overwritten(old(buffer.data[..]), old(buffer.writePtr), bytes))
    && old(buffer.writePtr) <= buffer.writePtr
    && buffer.data[..old(buffer.writePtr)] == old(buffer.data[..])[..old(buffer.writePtr)]
  }

  lemma FrontStays(before: seq<Byte>, middle: seq<Byte>, after: seq<Byte>, at: nat, mid: nat)
    requires at <= mid && mid <= |before| == |middle| == |after|
    requires middle[..at] == before[..at] && after[..mid] == middle[..mid]
    ensures after[..at] == before[..at]
  {
    assert after[..at] == after[..mid][..at];
    assert middle[..at] == middle[..mid][..at];
  }

  // ----- serialising -----

  method SerializeWord(pk: Packer, buffer: Buffer, w: nat) returns (ok: bool)
    requires buffer.Valid() && w < WORD64
    modifies buffer`writePtr, buffer.data
    ensures buffer.Valid() && Appends(buffer, WordBytes(pk, w), ok)
  {
    var bytes := HostBytes(pk.host, w);
    if pk == Network(Little) {
      ok := buffer.WriteBytesInReverseOrder(bytes);
    } else {
      ok := buffer.WriteBytes(bytes);
    }
  }

  method SerializeString(pk: Packer, buffer: Buffer, chars: seq<Byte>) returns (ok: bool)
    requires buffer.Valid()
    modifies buffer`writePtr, buffer.data
    ensures buffer.Valid() && Appends(buffer, WordBytes(pk, ToWord(|chars|)) + chars, ok)
  {
    ghost var data, at := buffer.data[..], buffer.writePtr;
    ok := SerializeWord(pk, buffer, ToWord(|chars|));
    if ok {
      OverwrittenTwice(data, at, WordBytes(pk, ToWord(|chars|)), []);
      ok := buffer.WriteBytes(chars);
      if ok {
        OverwrittenTwice(data, at, WordBytes(pk, ToWord(|chars|)), chars);
      }
    }
  }

  method Serialize(pk: Packer, buffer: Buffer, v: Value) returns (ok: bool)
    requires buffer.Valid()
    modifies buffer`writePtr, buffer.data
    ensures buffer.Valid() && Appends(buffer, Encode(pk, v), ok)
    decreases v, 1
  {
    match v
    case VPrimitive(p) => ok := SerializeWord(pk, buffer, PrimitiveWord(p));
    case VString(chars) => ok := SerializeString(pk, buffer, chars);
    case VStruct(fields) => ok := SerializeAll(pk, buffer, fields);
  }

  method SerializeAll(pk: Packer, buffer: Buffer, vs: seq<Value>) returns (ok: bool)
    requires buffer.Valid()
    modifies buffer`writePtr, buffer.data
    ensures buffer.Valid() && Appends(buffer, EncodeAll(pk, vs), ok)
    decreases vs, 0
  {
    hide Encode, Overwritten;
    ghost var data, at := buffer.data[..], buffer.writePtr;
    if vs == [] {
      OverwrittenTwice(data, at, [], []);
      return true;
    }
    ok := Serialize(pk, buffer, vs[0]);
    if ok {
      ghost var middle, mid := buffer.data[..], buffer.writePtr;
      ok := SerializeAll(pk, buffer, vs[1..]);
      FrontStays(data, middle, buffer.data[..], at, mid);
      if ok {
        OverwrittenTwice(data, at, Encode(pk, vs[0]), EncodeAll(pk, vs[1..]));
      }
    }
  }

  /** Throws exactly when the encoding does not fit behind the write cursor. */
  method Pack(pk: Packer, buffer: Buffer, v: Value) returns (ok: bool)
    requires buffer.Valid()
    modifies buffer`writePtr, buffer.data
    ensures buffer.Valid()
    ensures ok <==> old(buffer.writePtr) + |Encode(pk, v)| <= BUFFER_CAPACITY
    ensures ok ==> buffer.writePtr == old(buffer.writePtr) + |Encode(pk, v)|
    ensures ok ==> buffer.data[..] == Overwritten(old(buffer.data[..]), old(buffer.writePtr), Encode(pk, v))
  {
    ok := Serialize(pk, buffer, v);
  }

  // ----- deserialising -----

  method DeserializeWord(pk: Packer, buffer: Buffer) returns (r: Option<nat>)
    requires buffer.Valid()
    modifies buffer`readPtr
    ensures buffer.Valid() && r == ParseWord(pk, buffer.data[..], old(buffer.readPtr))
    ensures buffer.readPtr == old(buffer.readPtr) + (if r.Some? then WORD_BYTES else 0)
  {
    var target := new Byte[WORD_BYTES];
    var ok;
    if pk == Network(Little) {
      ok := buffer.ReadBytesInReverseOrder(target);
    } else {
      ok := buffer.ReadBytes(target);
    }
    if !ok {
      return None;
    }
    var p := old(buffer.readPtr);
    assert buffer.data[p..p + WORD_BYTES] == buffer.data[..][p..p + WORD_BYTES];
    r := Some(HostValue(pk.host, target[..]));
  }

  method DeserializeString(pk: Packer, buffer: Buffer) returns (r: Option<Value>)
    requires buffer.Valid()
    modifies buffer`readPtr
    ensures buffer.Valid()
    ensures match ParseString(pk, buffer.data[..], old(buffer.readPtr))
            case None => r == None
            case Some((v, end)) => r == Some(v) && buffer.readPtr == end
  {
    hide BytesWord;
    var size := DeserializeWord(pk, buffer);
    if size == None {
      return None;
    }
    var target := new Byte[size.value];
    var p := buffer.readPtr;
    var ok := buffer.ReadBytes(target);
    if !ok {
      return None;
    }
    assert target[..] == buffer.data[..][p..p + size.value];
    r := Some(VString(target[..]));
  }

  method Deserialize(pk: Packer, buffer: Buffer, s: Schema) returns (r: Option<Value>)
    requires buffer.Valid()
    modifies buffer`readPtr
    ensures buffer.Valid()
    ensures match Parse(pk, s, buffer.data[..], old(buffer.readPtr))
            case None => r == None
            case Some((v, end)) => r == Some(v) && buffer.readPtr == end
    decreases s, 1
  {
    match s
    case SPrimitive(kind) =>
      var w := DeserializeWord(pk, buffer);
      r := if w == None then None else Some(VPrimitive(WordPrimitive(kind, w.value)));
    case SString =>
      r := DeserializeString(pk, buffer);
    case SStruct(schemas) =>
      var vs := DeserializeAll(pk, buffer, schemas);
      r := if vs == None then None else Some(VStruct(vs.value));
  }

  method DeserializeAll(pk: Packer, buffer: Buffer, ss: seq<Schema>) returns (r: Option<seq<Value>>)
    requires buffer.Valid()
    modifies buffer`readPtr
    ensures buffer.Valid()
    ensures match ParseAll(pk, ss, buffer.data[..], old(buffer.readPtr))
            case None => r == None
            case Some((vs, end)) => r == Some(vs) && buffer.readPtr == end
    decreases ss, 0
  {
    hide Parse;
    if ss == [] {
      return Some([]);
    }
    var first := Deserialize(pk, buffer, ss[0]);
    if first == None {
      return None;
    }
    var rest := DeserializeAll(pk, buffer, ss[1..]);
    r := if rest == None then None else Some([first.value] + rest.value);
  }

  /** If the bytes at the read cursor start with the encoding of a value of the schema, the
      value is returned and the cursor moves exactly behind it, whatever follows; and nothing else is ever accepted. */
  method Unpack(pk: Packer, buffer: Buffer, s: Schema) returns (r: Option<Value>)
    requires buffer.Valid()
    modifies buffer`readPtr
    ensures buffer.Valid()
    ensures forall v :: HasSchema(v, s) && LiesAt(Encode(pk, v), buffer.data[..], old(buffer.readPtr)) ==>
              r == Some(v) && buffer.readPtr == old(buffer.readPtr) + |Encode(pk, v)|
    ensures r.Some? ==>
              && HasSchema(r.value, s)
              && LiesAt(Encode(pk, r.value), buffer.data[..], old(buffer.readPtr))
              && buffer.readPtr == old(buffer.readPtr) + |Encode(pk, r.value)|
  {
    ghost var data, pos := buffer.data[..], buffer.readPtr;
    r := Deserialize(pk, buffer, s);
    forall v | HasSchema(v, s) && LiesAt(Encode(pk, v), data, pos)
      ensures Parse(pk, s, data, pos) == Some((v, pos + |Encode(pk, v)|))
    {
      ParseOfEncode(pk, v, s, data, pos);
    }
    if r.Some? {
      EncodeOfParse(pk, s, data, pos);
    }
  }
}
