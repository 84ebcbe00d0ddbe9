/** The wire format of the packers: which bytes a value becomes, how a schema-directed
    reader parses them, and the theorems that connect the two. */
module PackerSpec {
  import opened Bytes
  import opened Wrappers

  const WORD64: nat := 0x1_0000_0000_0000_0000

  const WORD_BYTES: nat := 8

  datatype Endianness = Big | Little

  /** `Local` writes words in host order, `Network` reverses them on a little-endian host. */
  datatype Packer = Local(host: Endianness) | Network(host: Endianness)

  datatype Kind = Int64 | Uint64 | Double | Tick

  datatype Schema =
    | SPrimitive(kind: Kind)
    | SString
    | SStruct(schemas: seq<Schema>)

  /** A double is its 64-bit pattern, a tick its count since the epoch. */
  datatype Primitive =
    | PInt64(i: int)
    | PUint64(u: nat)
    | PDouble(bits: nat)
    | PTick(count: int)

  datatype Value =
    | VPrimitive(primitive: Primitive)
    | VString(chars: seq<Byte>)
    | VStruct(fields: seq<Value>)

  predicate IsInt64(i: int) { -0x8000_0000_0000_0000 <= i < 0x8000_0000_0000_0000 }

  predicate HasKind(p: Primitive, kind: Kind) {
    match p
    case PInt64(i) => kind == Int64 && IsInt64(i)
    case PUint64(u) => kind == Uint64 && u < WORD64
    case PDouble(bits) => kind == Double && bits < WORD64
    case PTick(count) => kind == Tick && IsInt64(count)
  }

  predicate HasSchema(v: Value, s: Schema) {
    match v
    case VPrimitive(p) => s.SPrimitive? && HasKind(p, s.kind)
    case VString(chars) => s.SString? && |chars| < WORD64
    case VStruct(fields) => s.SStruct? && HaveSchemas(fields, s.schemas)
  }

  predicate HaveSchemas(vs: seq<Value>, ss: seq<Schema>) {
    |vs| == |ss| && (vs == [] || (HasSchema(vs[0], ss[0]) && HaveSchemas(vs[1..], ss[1..])))
  }

  // ----- words -----

  /** Two's complement. */
  function ToWord(i: int): (w: nat)
    ensures w < WORD64 && (0 <= i < WORD64 ==> w == i)
  {
    i % WORD64
  }

  function FromWord(w: nat): int
    requires w < WORD64
  {
    if w < 0x8000_0000_0000_0000 then w else w - WORD64
  }

  function PrimitiveWord(p: Primitive): (w: nat)
    ensures w < WORD64
  {
    match p
    case PInt64(i) => ToWord(i)
    case PUint64(u) => ToWord(u)
    case PDouble(bits) => ToWord(bits)
    case PTick(count) => ToWord(count)
  }

  function WordPrimitive(kind: Kind, w: nat): Primitive
    requires w < WORD64
  {
    match kind
    case Int64 => PInt64(FromWord(w))
    case Uint64 => PUint64(w)
    case Double => PDouble(w)
    case Tick => PTick(FromWord(w))
  }

  lemma PrimitiveRoundTrip(p: Primitive, kind: Kind)
    requires HasKind(p, kind)
    ensures WordPrimitive(kind, PrimitiveWord(p)) == p
  {
  }

  lemma PrimitiveOnto(kind: Kind, w: nat)
    requires w < WORD64
    ensures HasKind(WordPrimitive(kind, w), kind) && PrimitiveWord(WordPrimitive(kind, w)) == w
  {
  }

  /** The bytes of a 64-bit object in the memory of a host. */
  function HostBytes(host: Endianness, w: nat): (s: seq<Byte>)
    ensures |s| == WORD_BYTES
  {
    if host.Little? then LittleEndian(w, WORD_BYTES) else BigEndian(w, WORD_BYTES)
  }

  function HostValue(host: Endianness, s: seq<Byte>): (w: nat)
    requires |s| == WORD_BYTES
    ensures w < WORD64
  {
    assert Pow256(4) == 0x1_0000_0000;
    assert Pow256(WORD_BYTES) == WORD64;
    if host.Little? then FromLittleEndian(s) else FromBigEndian(s)
  }

  predicate Reverses(pk: Packer) { pk == Network(Little) }

  function WordBytes(pk: Packer, w: nat): (s: seq<Byte>)
    ensures |s| == WORD_BYTES
  {
    if Reverses(pk) then Reverse(HostBytes(pk.host, w)) else HostBytes(pk.host, w)
  }

  function BytesWord(pk: Packer, s: seq<Byte>): (w: nat)
    requires |s| == WORD_BYTES
    ensures w < WORD64
  {
    if Reverses(pk) then HostValue(pk.host, Reverse(s)) else HostValue(pk.host, s)
  }

  lemma WordRoundTrip(pk: Packer, w: nat)
    requires w < WORD64
    ensures BytesWord(pk, WordBytes(pk, w)) == w
  {
    assert Pow256(4) == 0x1_0000_0000;
    assert Pow256(WORD_BYTES) == WORD64;
    LittleRoundTrip(w, WORD_BYTES);
    BigRoundTrip(w, WORD_BYTES);
    ReverseTwice(HostBytes(pk.host, w));
  }

  lemma WordOnto(pk: Packer, s: seq<Byte>)
    requires |s| == WORD_BYTES
    ensures WordBytes(pk, BytesWord(pk, s)) == s
  {
    LittleOnto(s);
    LittleOnto(Reverse(s));
    BigOnto(s);
    BigOnto(Reverse(s));
    ReverseTwice(s);
  }

  /** The local packer writes a word as it lies in the memory of its host. */
  lemma LocalWordIsHostOrder(w: nat)
    ensures WordBytes(Local(Little), w) == LittleEndian(w, WORD_BYTES)
    ensures WordBytes(Local(Big), w) == BigEndian(w, WORD_BYTES)
  {
  }

  /** What a packer reads from eight bytes: the local packer a word in the order of its
      host, the network packer one in network order on any host. */
  lemma WordsRead(s: seq<Byte>, host: Endianness)
    requires |s| == WORD_BYTES
    ensures BytesWord(Local(Little), s) == FromLittleEndian(s)
    ensures BytesWord(Local(Big), s) == FromBigEndian(s)
    ensures BytesWord(Network(host), s) == FromBigEndian(s)
  {
    var w := BytesWord(Network(host), s);
    WordOnto(Network(host), s);
    NetworkWordIsBigEndian(host, w);
    Pow256Of8();
    BigRoundTrip(w, WORD_BYTES);
  }

  lemma Pow256Of8()
    ensures Pow256(WORD_BYTES) == WORD64
  {
    assert Pow256(4) == 0x1_0000_0000;
  }

  /** Integers and ticks are written in two's complement: a non-negative one as that number,
      a negative one as 2^64 plus it. Unsigned integers and double patterns are written as
      they are. */
  lemma PrimitiveWordIs(p: Primitive, kind: Kind)
    requires HasKind(p, kind)
    ensures match p
            case PInt64(i) => PrimitiveWord(p) == if 0 <= i then i else 0x1_0000_0000_0000_0000 + i
            case PUint64(u) => PrimitiveWord(p) == u
            case PDouble(bits) => PrimitiveWord(p) == bits
            case PTick(count) => PrimitiveWord(p) == if 0 <= count then count else 0x1_0000_0000_0000_0000 + count
  {
  }

  // ----- encoding -----

  function Encode(pk: Packer, v: Value): seq<Byte>
    decreases v, 1
  {
    match v
    case VPrimitive(p) => WordBytes(pk, PrimitiveWord(p))
    case VString(chars) => WordBytes(pk, ToWord(|chars|)) + chars
    case VStruct(fields) => EncodeAll(pk, fields)
  }

  function EncodeAll(pk: Packer, vs: seq<Value>): seq<Byte>
    decreases vs, 0
  {
    if vs == [] then [] else Encode(pk, vs[0]) + EncodeAll(pk, vs[1..])
  }

  /** On the wire a string is its length as a word, then its characters. */
  lemma StringOnWire(pk: Packer, chars: seq<Byte>)
    requires |chars| < WORD64
    ensures Encode(Network(pk.host), VString(chars)) == BigEndian(|chars|, WORD_BYTES) + chars
    ensures Encode(Local(Little), VString(chars)) == LittleEndian(|chars|, WORD_BYTES) + chars
    ensures Encode(Local(Big), VString(chars)) == BigEndian(|chars|, WORD_BYTES) + chars
  {
    hide WordBytes, LittleEndian, BigEndian;
    assert ToWord(|chars|) == |chars|;
    NetworkWordIsBigEndian(pk.host, |chars|);
    LocalWordIsHostOrder(|chars|);
  }

  lemma PrimitiveOnWire(p: Primitive, kind: Kind, host: Endianness)
    requires HasKind(p, kind)
    ensures Encode(Network(host), VPrimitive(p)) == BigEndian(PrimitiveWord(p), WORD_BYTES)
    ensures Encode(Local(Little), VPrimitive(p)) == LittleEndian(PrimitiveWord(p), WORD_BYTES)
    ensures Encode(Local(Big), VPrimitive(p)) == BigEndian(PrimitiveWord(p), WORD_BYTES)
  {
    hide WordBytes, LittleEndian, BigEndian, PrimitiveWord;
    NetworkWordIsBigEndian(host, PrimitiveWord(p));
    LocalWordIsHostOrder(PrimitiveWord(p));
  }

  /** The fields of a struct lie in declaration order, nothing before, between or behind. */
  lemma {:induction false} FieldOnWire(pk: Packer, vs: seq<Value>, i: nat)
    requires i < |vs|
    ensures Encode(pk, VStruct(vs)) == EncodeAll(pk, vs[..i]) + Encode(pk, vs[i]) + EncodeAll(pk, vs[i + 1..])
    decreases i
  {
    if i == 0 {
      assert vs[..0] == [];
    } else {
      FieldOnWire(pk, vs[1..], i - 1);
      assert vs[1..][..i - 1] == vs[..i][1..];
      assert vs[1..][i..] == vs[i + 1..];
    }
  }

  // ----- parsing -----

  /** A word at a position; fails where the buffer ends. */
  function ParseWord(pk: Packer, data: seq<Byte>, pos: nat): (r: Option<nat>)
    ensures r.Some? ==> r.value < WORD64 && pos + WORD_BYTES <= |data|
  {
    if pos + WORD_BYTES > |data| then None else Some(BytesWord(pk, data[pos..pos + WORD_BYTES]))
  }

  /** The value of a schema at a position and the position behind it. */
  function Parse(pk: Packer, s: Schema, data: seq<Byte>, pos: nat): Option<(Value, nat)>
    decreases s, 1
  {
    match s
    case SPrimitive(kind) => ParsePrimitive(pk, kind, data, pos)
    case SString => ParseString(pk, data, pos)
    case SStruct(schemas) =>
      match ParseAll(pk, schemas, data, pos)
      case None => None
      case Some((vs, end)) => Some((VStruct(vs), end))
  }

  function ParsePrimitive(pk: Packer, kind: Kind, data: seq<Byte>, pos: nat): Option<(Value, nat)> {
    match ParseWord(pk, data, pos)
    case None => None
    case Some(w) => Some((VPrimitive(WordPrimitive(kind, w)), pos + WORD_BYTES))
  }

  function ParseString(pk: Packer, data: seq<Byte>, pos: nat): Option<(Value, nat)> {
    match ParseWord(pk, data, pos)
    case None => None
    case Some(size) =>
      if pos + WORD_BYTES + size > |data| then None
      else Some((VString(data[pos + WORD_BYTES..pos + WORD_BYTES + size]), pos + WORD_BYTES + size))
  }

  function ParseAll(pk: Packer, ss: seq<Schema>, data: seq<Byte>, pos: nat): Option<(seq<Value>, nat)>
    decreases ss, 0
  {
    if ss == [] then Some(([], pos))
    else
      match Parse(pk, ss[0], data, pos)
      case None => None
      case Some((v, mid)) =>
        match ParseAll(pk, ss[1..], data, mid)
        case None => None
        case Some((vs, end)) => Some(([v] + vs, end))
  }

  /** `bytes` lie in `data` at `pos`. */
  predicate LiesAt(bytes: seq<Byte>, data: seq<Byte>, pos: nat) {
    pos + |bytes| <= |data| && data[pos..pos + |bytes|] == bytes
  }

  lemma LiesApart(a: seq<Byte>, b: seq<Byte>, data: seq<Byte>, pos: nat)
    requires LiesAt(a + b, data, pos)
    ensures LiesAt(a, data, pos) && LiesAt(b, data, pos + |a|)
  {
    assert data[pos..pos + |a|] == (a + b)[..|a|];
    assert data[pos + |a|..pos + |a| + |b|] == (a + b)[|a|..];
  }

  lemma LiesTogether(a: seq<Byte>, b: seq<Byte>, data: seq<Byte>, pos: nat)
    requires LiesAt(a, data, pos) && LiesAt(b, data, pos + |a|)
    ensures LiesAt(a + b, data, pos)
  {
    assert data[pos..pos + |a + b|] == data[pos..pos + |a|] + data[pos + |a|..pos + |a| + |b|];
  }

  lemma LiesWithin(bytes: seq<Byte>, data: seq<Byte>, pos: nat)
    requires pos <= |data|
    ensures LiesAt(bytes, data, pos) ==> pos + |bytes| <= |data|
    ensures LiesAt([], data, pos)
  {
  }

  // ----- round trips -----

  lemma ParseWordAt(pk: Packer, w: nat, data: seq<Byte>, pos: nat)
    requires w < WORD64 && LiesAt(WordBytes(pk, w), data, pos)
    ensures ParseWord(pk, data, pos) == Some(w)
  {
    WordRoundTrip(pk, w);
  }

  lemma ParseOfString(pk: Packer, chars: seq<Byte>, data: seq<Byte>, pos: nat)
    requires |chars| < WORD64 && LiesAt(WordBytes(pk, |chars|) + chars, data, pos)
    ensures ParseString(pk, data, pos) == Some((VString(chars), pos + WORD_BYTES + |chars|))
  {
    hide WordBytes, BytesWord;
    LiesApart(WordBytes(pk, |chars|), chars, data, pos);
    ParseWordAt(pk, |chars|, data, pos);
  }

  /** Unpacking what was packed returns the value and stops exactly behind its encoding,
      whatever bytes stand before and after it. */
  lemma {:induction false} ParseOfEncode(pk: Packer, v: Value, s: Schema, data: seq<Byte>, pos: nat)
    requires HasSchema(v, s) && LiesAt(Encode(pk, v), data, pos)
    ensures Parse(pk, s, data, pos) == Some((v, pos + |Encode(pk, v)|))
    decreases v, 1
  {
    hide WordBytes, BytesWord, LiesAt, ParseString, PrimitiveWord, WordPrimitive;
    match v
    case VPrimitive(p) =>
      PrimitiveRoundTrip(p, s.kind);
      ParseWordAt(pk, PrimitiveWord(p), data, pos);
    case VString(chars) =>
      ParseOfString(pk, chars, data, pos);
    case VStruct(fields) => ParseOfEncodeAll(pk, fields, s.schemas, data, pos);
  }

  /** Objects packed one after another unpack in the same order. */
  lemma {:induction false} ParseOfEncodeAll(pk: Packer, vs: seq<Value>, ss: seq<Schema>, data: seq<Byte>, pos: nat)
    requires HaveSchemas(vs, ss) && LiesAt(EncodeAll(pk, vs), data, pos)
    ensures ParseAll(pk, ss, data, pos) == Some((vs, pos + |EncodeAll(pk, vs)|))
    decreases vs, 0
  {
    hide LiesAt, Encode, Parse, HasSchema;
    if vs != [] {
      var first := Encode(pk, vs[0]);
      LiesApart(first, EncodeAll(pk, vs[1..]), data, pos);
      ParseOfEncode(pk, vs[0], ss[0], data, pos);
      ParseOfEncodeAll(pk, vs[1..], ss[1..], data, pos + |first|);
      assert [vs[0]] + vs[1..] == vs;
    }
  }

  lemma ParsedWord(pk: Packer, data: seq<Byte>, pos: nat)
    requires ParseWord(pk, data, pos).Some?
    ensures LiesAt(WordBytes(pk, ParseWord(pk, data, pos).value), data, pos)
  {
    WordOnto(pk, data[pos..pos + WORD_BYTES]);
  }

  lemma EncodeOfString(pk: Packer, data: seq<Byte>, pos: nat)
    requires |data| < WORD64 && ParseString(pk, data, pos).Some?
    ensures var r := ParseString(pk, data, pos).value;
            && r.0.VString? && |r.0.chars| < WORD64
            && r.1 == pos + WORD_BYTES + |r.0.chars|
            && LiesAt(WordBytes(pk, |r.0.chars|) + r.0.chars, data, pos)
  {
    hide WordBytes, BytesWord;
    var chars := ParseString(pk, data, pos).value.0.chars;
    ParsedWord(pk, data, pos);
    assert ParseWord(pk, data, pos) == Some(|chars|);
    LiesTogether(WordBytes(pk, |chars|), chars, data, pos);
  }

  /** Conversely, whatever unpacks has the schema, and the bytes consumed are exactly its
      encoding: no value has a second representation. */
  lemma {:induction false} EncodeOfParse(pk: Packer, s: Schema, data: seq<Byte>, pos: nat)
    requires pos <= |data| < WORD64 && Parse(pk, s, data, pos).Some?
    ensures var (v, end) := Parse(pk, s, data, pos).value;
            HasSchema(v, s) && LiesAt(Encode(pk, v), data, pos) && end == pos + |Encode(pk, v)|
    decreases s, 1
  {
    hide WordBytes, BytesWord, LiesAt, ParseString, PrimitiveWord, WordPrimitive;
    match s
    case SPrimitive(kind) =>
      ParsedWord(pk, data, pos);
      PrimitiveOnto(kind, ParseWord(pk, data, pos).value);
    case SString =>
      EncodeOfString(pk, data, pos);
    case SStruct(schemas) => EncodeOfParseAll(pk, schemas, data, pos);
  }

  lemma {:induction false} EncodeOfParseAll(pk: Packer, ss: seq<Schema>, data: seq<Byte>, pos: nat)
    requires pos <= |data| < WORD64 && ParseAll(pk, ss, data, pos).Some?
    ensures var (vs, end) := ParseAll(pk, ss, data, pos).value;
            HaveSchemas(vs, ss) && LiesAt(EncodeAll(pk, vs), data, pos) && end == pos + |EncodeAll(pk, vs)|
    decreases ss, 0
  {
    hide LiesAt, Encode, Parse, HasSchema;
    LiesWithin([], data, pos);
    if ss != [] {
      EncodeOfParse(pk, ss[0], data, pos);
      var (v, mid) := Parse(pk, ss[0], data, pos).value;
      LiesWithin(Encode(pk, v), data, pos);
      EncodeOfParseAll(pk, ss[1..], data, mid);
      var (rest, end) := ParseAll(pk, ss[1..], data, mid).value;
      assert ([v] + rest)[1..] == rest;
      LiesTogether(Encode(pk, v), EncodeAll(pk, rest), data, pos);
    }
  }

  // ----- independence of the host -----

  /** Both network packers put words on the wire in network byte order (Appendix B of RFC 791). */
  lemma NetworkWordIsBigEndian(host: Endianness, w: nat)
    ensures WordBytes(Network(host), w) == BigEndian(w, WORD_BYTES)
  {
    BigIsReversedLittle(w, WORD_BYTES);
  }

  /** The reversing packer of a little-endian host and the copying packer of a big-endian
      host emit the same bytes for every value. */
  lemma {:induction false} HostIndependence(v: Value)
    ensures Encode(Network(Little), v) == Encode(Network(Big), v)
    decreases v, 1
  {
    match v
    case VPrimitive(p) => SameWord(PrimitiveWord(p));
    case VString(chars) => SameWord(ToWord(|chars|));
    case VStruct(fields) => HostIndependenceAll(fields);
  }

  lemma SameWord(w: nat)
    ensures WordBytes(Network(Little), w) == WordBytes(Network(Big), w)
  {
    NetworkWordIsBigEndian(Little, w);
    NetworkWordIsBigEndian(Big, w);
  }

  lemma {:induction false} HostIndependenceAll(vs: seq<Value>)
    ensures EncodeAll(Network(Little), vs) == EncodeAll(Network(Big), vs)
    decreases vs, 0
  {
    if vs != [] {
      HostIndependence(vs[0]);
      HostIndependenceAll(vs[1..]);
    }
  }

  /** So packing on one host and unpacking on any other returns the value. */
  lemma CrossHostRoundTrip(from: Endianness, to: Endianness, v: Value, s: Schema, data: seq<Byte>, pos: nat)
    requires HasSchema(v, s) && LiesAt(Encode(Network(from), v), data, pos)
    ensures Parse(Network(to), s, data, pos) == Some((v, pos + |Encode(Network(from), v)|))
  {
    HostIndependence(v);
    assert Encode(Network(from), v) == Encode(Network(to), v);
    ParseOfEncode(Network(to), v, s, data, pos);
  }

  /** The local packer has no such property: hosts of different byte order read a word of
      the other one wrongly exactly when its bytes are not a palindrome. */
  lemma LocalCrossHost(w: nat)
    requires w < WORD64
    ensures BytesWord(Local(Big), WordBytes(Local(Little), w)) == w <==>
            Reverse(LittleEndian(w, WORD_BYTES)) == LittleEndian(w, WORD_BYTES)
  {
    var s := LittleEndian(w, WORD_BYTES);
    BigIsReversedLittle(w, WORD_BYTES);
    WordRoundTrip(Local(Big), w);
    WordOnto(Local(Big), s);
  }
}
