/** The bytes of a message and how each binding reads them back: the walk of
    `serializeROSmessage` and `deserializeROSmessage` as pure functions.
    The C binding writes what it sees of a value, so one writer serves both. */
module Wire {
  import opened Cbor
  import opened Messages

  // ---------- writing ----------

  function WriteNumber(n: Number, v: Value): seq<byte>
    requires HasNumber(n, v)
  {
    match n
    case Boolean => EncodeBool(v.b)
    case Float => EncodeFloat(v.bits)
    case Double => EncodeDouble(v.bits)
    case _ => EncodeInt(v.i)
  }

  function WriteUnits(units: seq<nat>): seq<byte>
    requires forall i :: 0 <= i < |units| ==> units[i] < TWO_16
  {
    if units == [] then [] else EncodeInt(units[0]) + WriteUnits(units[1..])
  }

  /** One element. */
  function Write(k: Kind, v: Value): seq<byte>
    requires HasKind(k, v)
    decreases k, 0
  {
    match k
    case Num(n) => WriteNumber(n, v)
    case String(_) => EncodeString(TEXT, v.s)
    case WString(_) => Head(ARRAY, |v.units|) + WriteUnits(v.units)
    case Message(members) => Head(ARRAY, |members|) + WriteMembers(members, v.fields)
  }

  function WriteEach(k: Kind, vs: seq<Value>): seq<byte>
    requires HasKinds(k, vs)
    decreases k, 1, |vs|
  {
    if vs == [] then [] else Write(k, vs[0]) + WriteEach(k, vs[1..])
  }

  predicate IsByte(k: Kind) {
    k.Num? && (k.number.Octet? || k.number.Uint8?)
  }

  function AsBytes(k: Kind, vs: seq<Value>): (bs: seq<byte>)
    requires IsByte(k) && HasKinds(k, vs)
    ensures |bs| == |vs|
  {
    if vs == [] then [] else
      assert HasKind(k, vs[0]);
      [vs[0].i] + AsBytes(k, vs[1..])
  }

  function FromBytes(bs: seq<byte>): (vs: seq<Value>)
    ensures |vs| == |bs|
  {
    if bs == [] then [] else [IntV(bs[0])] + FromBytes(bs[1..])
  }

  /** `encodeSequence`: arrays of octets are one byte string, other arrays a CBOR array. */
  function WriteSequence(k: Kind, vs: seq<Value>): seq<byte>
    requires HasKinds(k, vs) && |vs| < TWO_64
    decreases k, 2
  {
    if IsByte(k) then EncodeString(BYTES, AsBytes(k, vs)) else Head(ARRAY, |vs|) + WriteEach(k, vs)
  }

  function WriteMember(m: Member, v: Value): seq<byte>
    requires HasMember(m, v)
    decreases m
  {
    if !m.isArray then Write(m.kind, v)
    else if !m.kind.Message? then WriteSequence(m.kind, v.elems)
    else if m.IsFixed() then WriteEach(m.kind, v.elems)
    else Head(UINT, |v.elems| % TWO_32) + WriteEach(m.kind, v.elems)
  }

  function WriteMembers(ms: seq<Member>, vs: seq<Value>): seq<byte>
    requires HasMembers(ms, vs)
    decreases ms
  {
    if ms == [] then [] else WriteMember(ms[0], vs[0]) + WriteMembers(ms[1..], vs[1..])
  }

  // ---------- reading ----------

  function ReadNumber(n: Number, bs: seq<byte>): Parse<Value> {
    match n
    case Boolean => var (b, r) :- ReadBool(bs); Got(BoolV(b), r)
    case Float => var (x, r) :- ReadBits(26, bs); Got(BitsV(x), r)
    case Double => var (x, r) :- ReadBits(27, bs); Got(BitsV(x), r)
    case Octet | Uint8 | Uint16 | Uint32 | Uint64 => var (x, r) :- ReadUint(High(n), bs); Got(IntV(x), r)
    case _ => var (x, r) :- ReadInt(Low(n), High(n), bs); Got(IntV(x), r)
  }

  function ReadUnits(n: nat, bs: seq<byte>): (p: Parse<seq<nat>>)
    ensures p.Got? ==> |p.value| == n
  {
    if n == 0 then Got([], bs) else
      var (u, r) :- ReadUint(TWO_16 - 1, bs);
      var (us, r') :- ReadUnits(n - 1, r);
      Got([u] + us, r')
  }

  function ReadU16String(bs: seq<byte>): Parse<seq<nat>> {
    var (n, r) :- ReadArray(bs);
    ReadUnits(n, r)
  }

  function Read(b: Binding, k: Kind, bs: seq<byte>): Parse<Value>
    decreases k, 0
  {
    match k
    case Num(n) => ReadNumber(n, bs)
    case String(_) => var (s, r) :- ReadString(TEXT, bs); Got(Seen(b, StrV(s)), r)
    case WString(_) => var (u, r) :- ReadU16String(bs); Got(Seen(b, WStrV(u)), r)
    case Message(members) =>
      var (n, r) :- ReadArray(bs);
      if n != |members| then Fail else
        var (fields, r') :- ReadMembers(b, members, r);
        Got(MsgV(fields), r')
  }

  function ReadEach(b: Binding, k: Kind, n: nat, bs: seq<byte>): (p: Parse<seq<Value>>)
    ensures p.Got? ==> |p.value| == n
    decreases k, 1, n
  {
    if n == 0 then Got([], bs) else
      var (v, r) :- Read(b, k, bs);
      var (vs, r') :- ReadEach(b, k, n - 1, r);
      Got([v] + vs, r')
  }

  /** `operator>>` for vectors: the length comes from the head. */
  function ReadVector(k: Kind, bs: seq<byte>): Parse<seq<Value>>
    decreases k, 2
  {
    if IsByte(k) then
      var (s, r) :- ReadString(BYTES, bs);
      Got(FromBytes(s), r)
    else
      var (n, r) :- ReadArray(bs);
      ReadEach(Cpp, k, n, r)
  }

  /** `decodeSequence`: the head must announce exactly `n` elements. */
  function ReadExactly(k: Kind, n: nat, bs: seq<byte>): Parse<seq<Value>>
    decreases k, 2
  {
    if IsByte(k) then
      var (s, r) :- ReadString(BYTES, bs);
      if |s| == n then Got(FromBytes(s), r) else Fail
    else
      var (size, r) :- ReadArray(bs);
      if size == n then ReadEach(Cpp, k, n, r) else Fail
  }

  /** A C array of strings is read as a C++ vector, then copied.  A vector shorter than a fixed
      array is indexed out of bounds by the source; that is a failure here. */
  function ReadCStrings(m: Member, bs: seq<byte>): Parse<seq<Value>>
    decreases m, 0
  {
    var (vs, r) :- ReadVector(m.kind, bs);
    if !m.IsFixed() then Got(SeenAll(C, vs), r)
    else if |vs| < m.arraySize then Fail
    else Got(SeenAll(C, vs[..m.arraySize]), r)
  }

  function ReadArrayMember(b: Binding, m: Member, bs: seq<byte>): Parse<seq<Value>>
    decreases m, 1
  {
    if m.kind.Message? then
      var (n, r) :- if m.IsFixed() then Got(m.arraySize, bs) else ReadUint(TWO_32 - 1, bs);
      ReadEach(b, m.kind, n, r)
    else if b.C? && !m.kind.Num? then ReadCStrings(m, bs)
    else if m.IsFixed() then ReadExactly(m.kind, m.arraySize, bs)
    else if b.Cpp? then ReadVector(m.kind, bs)
    else
      var (n, r) :- PeekSize(bs);
      ReadExactly(m.kind, n, r)
  }

  function ReadMember(b: Binding, m: Member, bs: seq<byte>): Parse<Value>
    decreases m, 2
  {
    if !m.isArray then Read(b, m.kind, bs) else
      var (vs, r) :- ReadArrayMember(b, m, bs);
      Got(ListV(vs), r)
  }

  function ReadMembers(b: Binding, ms: seq<Member>, bs: seq<byte>): Parse<seq<Value>>
    decreases ms
  {
    if ms == [] then Got([], bs) else
      var (v, r) :- ReadMember(b, ms[0], bs);
      var (vs, r') :- ReadMembers(b, ms[1..], r);
      Got([v] + vs, r')
  }

  // ---------- whole messages ----------

  /** The top level writes a message without members as the single unsigned integer 0. */
  function WriteTop(members: seq<Member>, v: Value): seq<byte>
    requires HasKind(Message(members), v)
  {
    if members != [] then Write(Message(members), v) else EncodeInt(0)
  }

  /** What a binding writes for a message: the bytes of the value it sees. */
  function Encoding(b: Binding, members: seq<Member>, v: Value): seq<byte>
    requires HasKind(Message(members), v)
  {
    SeenHasKind(b, Message(members), v);
    WriteTop(members, Seen(b, v))
  }

  function ReadTop(b: Binding, members: seq<Member>, bs: seq<byte>): Parse<Value> {
    if members != [] then Read(b, Message(members), bs) else
      var (_, r) :- ReadUint(0xFF, bs);
      Got(MsgV([]), r)
  }
}
